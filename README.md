# Flash: a verified model of the study store, the card extractors and the quiz views

Flash is a study application for lectures. A lecture's text becomes flashcards, either through a
backend that asks a language model or through an in-browser heuristic extractor. Cards are studied
in learning runs and tested in multiple-choice evaluation runs.

This project models, in Dafny, the logic behind the user interface:

- **Wrappers**: `Option` and small numeric helpers (`Min`, `Max`).
- **Text**: ASCII character classes. It also has JavaScript's `trim`, Python's `strip` and `split()`,
  one-character `split`/`join`, substring search, `normalizeTerm` and `_norm_key` (lower-case, then
  keep `[a-z0-9]`).
- **Chunking**: `chunkText` of `frontend/src/store.js`. The text is split at blank lines
  (`/\n\s*\n/`) into paragraphs. Paragraphs are then packed into chunks of at most 2000 UTF-16 code units.
- **Keyed**: insertion-ordered tables, "longer explanation wins" offers, and first-occurrence lists
  (`new Set(xs)`, `Map.values()`).
- **Domain**: the linked entity graph and its two-sided reference invariant:
  - sets list their lectures, lectures list their cards, and each child names its parent;
  - every store transition is a function on the graph: create, add, delete, edit, import,
    recording a source, new stats;
  - learning orders and cursor clamping.
- **Links**: proofs that each transition keeps the reference invariant.
- **Merge**: the upsert of generated rows into a lecture during ingestion, keyed by the normalized
  term, where a strictly longer explanation wins.
- **Random**: the Fisher–Yates `shuffle` over an explicit stream of random draws.
- **Extractor**: `generateCardsLocally` of `frontend/src/App.jsx`:
  - three passes over the trimmed, non-empty lines: pipe tables, delimiter lines, and a heading
    followed by a line;
  - its regular expressions restated on characters;
  - then dedup by normalized term and a cap of 500 rows.
- **Evaluation**: `makeEvaluationItems`. It builds one multiple-choice item per present card, with
  distractors drawn from the other cards.
- **Records**: stats patches, the answer streak rule, the job order, and the ingestion pipeline as
  a sequence of job stages.
- **Invariant**: the store invariant (linked graph, ids below the id counter, jobs listed once) and
  why each action keeps it.
- **Store**: the zustand store as a class. Its fields are the maps the source replaces. It has one
  method per store action, and each method's contract gives the new state and keeps the invariant.
- **Summary**: the score, rows, wrong/right split and per-lecture tallies of
  `frontend/src/components/SummaryPanel.jsx`, and the `EvalSummary` of `frontend/src/App.jsx`.
- **ScopeSelect**: the `toggleAll`/`toggleOne` rules of
  `frontend/src/components/ScopeSelect.jsx`.
- **FlashGen**: `backend/utils/flashgen.py`:
  - the key, admin-term and dedupe helpers;
  - the filters applied to the model's replies;
  - the coverage loop of `generate_flashcards_iterative` and `generate_flashcards_and_summary`.

  The two model calls are functions passed in as parameters.

Modelling choices:

- **Ids.** `newId()` becomes a counter. The id of a set, lecture, card, job, run, source, chunk or
  option is a natural number taken from it.
- **Time and backend.** Timestamps are parameters. The backend's reply is a parameter that is
  `None` when the call fails.
- **Progress.** Job progress is counted in tenths: 0.2 is 2, and so on up to 10.
- **Store copies.** `frontend/src/store.js` has the store that is modelled. The older copy in
  `frontend/src/App.jsx` has no delete, `addCard` or `editCard` action. Its other actions are the
  same, except its ingestion, which is modelled as `Store.State.IngestTextLocally`. The extractor is modelled from `frontend/src/App.jsx`; the copy
  in `frontend/src/store.js` is never called.

Where the source crashes on a missing record (a `TypeError` on `undefined`), the model either
requires the record to exist or follows the crash. Each such case is listed under "Left out".

Behaviours of the source that the model keeps:

- An explanation updated by the merge is stored untrimmed. A card the merge creates is trimmed.
- The index of existing cards is built once per batch. So two new rows with the same key become
  two cards (`Merge.DuplicateNewKeys`).
- When several rows match one existing card, the last strictly longer row wins.
- `answerMCQ` still accepts answers after `finishEvaluation`.
- The delimiter pattern's lazy first group leaves it empty on a line that starts with `-`. So a
  hyphen-bulleted line gives no delimiter row (`Extractor.HyphenLineYieldsNothing`).

## Model

| member | source | states |
|---|---|---|
| Text.NormalizeTerm | frontend/src/store.js:16 | The normalized term holds only `a`-`z` and `0`-`9` and is no longer than the input |
| Text.NormalizeIdempotent | frontend/src/App.jsx:22 | Normalizing a normalized term changes nothing |
| Text.NormalizeTrim | frontend/src/store.js:142 | Trimming a term does not change its normalized key, so a new card keys as the row it came from |
| Text.NormalizePyStrip | backend/utils/flashgen.py:20-24 | Python's `strip` does not change the key, so `_dedupe` stores a card under the key of its stripped term |
| Text.TrimIdempotent | frontend/src/store.js:380-381 | A trimmed string has no white space at either end, and trimming it again changes nothing |
| Text.PyStripIdempotent | backend/utils/flashgen.py:179-180 | A stripped string has no Python white space at either end, and stripping it again changes nothing |
| Text.JoinSplit | frontend/src/App.jsx:385-386 | Joining the pieces of `split` with the separator gives back the text, so splitting loses no character |
| Text.ContainsIff | backend/utils/flashgen.py:15 | `b in t` holds exactly when `b` occurs in `t` at some index |
| Text.WordsAreWords | backend/utils/flashgen.py:183 | Every piece of `exp.split()` is a non-empty run of non-white-space characters |
| Text.WordsConcat | backend/utils/flashgen.py:183 | The pieces of `split()`, laid end to end, are exactly the text's non-white-space characters, in order |
| Text.WordsCount | backend/utils/flashgen.py:183 | `split()` yields one piece per maximal run: as many pieces as positions that start a run of non-white-space characters |
| Text.WordsSplit | backend/utils/flashgen.py:183 | A white-space character separates pieces: the pieces of `a + [c] + b` are those of `a` followed by those of `b` |
| Text.WordsOfBlanks | backend/utils/flashgen.py:183 | A text of white space alone has no pieces |
| Text.WordsOfWord | backend/utils/flashgen.py:183 | A single run of non-white-space characters is its own only piece |
| Text.Utf16LenBounds | frontend/src/store.js:474-475 | JavaScript's `length` counts at least one and at most two code units per character |
| Text.Utf16LenBmp | frontend/src/App.jsx:414 | `length` equals the character count exactly when no character lies above U+FFFF |
| Text.Utf16LenConcat | frontend/src/store.js:474-485 | The `length` of a concatenation is the sum of the parts' lengths, so a chunk's length is the sum of its paragraphs' |
| Chunking.Paragraphs | frontend/src/store.js:469 | Splitting always yields at least one paragraph, even for an empty text |
| Chunking.ParagraphsHaveNoBlankLine | frontend/src/store.js:469 | No paragraph contains a blank line, so every separator match was cut |
| Chunking.GroupsFlatten | frontend/src/store.js:473-494 | Concatenating the chunks' paragraph lists gives back the paragraph sequence, in order |
| Chunking.GroupsBounded | frontend/src/store.js:475-487 | Every chunk has a paragraph; a chunk of two or more paragraphs totals at most 2000 UTF-16 code units; a chunk is closed only when the next paragraph would push it past 2000 |
| Chunking.ChunkOrders | frontend/src/store.js:476-493 | Chunk `order` values are 0, 1, 2, ... and the ids are consecutive |
| Chunking.ChunkText | frontend/src/store.js:468-496 | The accumulator loop returns exactly the chunk records of the paragraph groups |
| Chunking.JoinChunkTexts | frontend/src/App.jsx:127-129 | Joining the chunk texts with blank lines gives a text that does not depend on the chunk ids |
| Keyed.Offer | backend/utils/flashgen.py:22-24 | A new key is stored and appended to the key order; only the offered key can change, and the key order changes only for a new key |
| Keyed.OfferReplaces | frontend/src/App.jsx:434 | On a stored key the offer replaces the entry exactly when the new explanation is strictly longer, and otherwise leaves the table unchanged; lengths are UTF-16 code units for the extractor and characters for `_dedupe` |
| Keyed.FirstOccurrencesSpec | frontend/src/components/ScopeSelect.jsx:20-23 | `Array.from(new Set(xs))` holds every element of `xs` exactly once, ordered by first occurrence |
| Domain.Without | frontend/src/store.js:362-364 | The filter keeps exactly the ids different from the removed one |
| Domain.LecturesOfMembers | frontend/src/store.js:322-325 | The lectures collected for a set are exactly the stored lectures naming it |
| Domain.CardsOfMembers | frontend/src/store.js:326-329 | The cards collected are exactly the stored cards of the collected lectures |
| Domain.CreateSetSpec | frontend/src/store.js:30-40 | `createSet` adds exactly one set, titled and with no lectures; every other record is unchanged |
| Domain.AddLectureSpec | frontend/src/store.js:42-58 | `addLecture` adds one empty lecture of the set and appends its id to that set's list; nothing else changes |
| Domain.DeleteSetSpec | frontend/src/store.js:318-346 | `deleteSet` removes exactly the set, the lectures naming it and the cards of those lectures; the survivors are unchanged |
| Domain.DeleteLectureSpec | frontend/src/store.js:348-372 | `deleteLecture` removes exactly the lecture and its cards; the survivors are unchanged |
| Domain.DeleteLectureSets | frontend/src/store.js:358-370 | On a linked graph, the lecture id goes from its set's list and the sets change in nothing else |
| Domain.AddCardSpec | frontend/src/store.js:374-394 | `addCard` adds one trimmed card with zero stats and appends its id to the lecture's list; nothing else changes |
| Domain.DeleteCardSpec | frontend/src/store.js:396-414 | `deleteCard` removes exactly the card; the other cards and the sets are unchanged |
| Domain.DeleteCardLectures | frontend/src/store.js:399-412 | On a linked graph, the card id goes from its lecture's list and the lectures change in nothing else |
| Domain.EditCardSpec | frontend/src/store.js:416-430 | `editCard` changes only the card's term and explanation, both trimmed; an unknown id changes nothing |
| Domain.ImportSpec | frontend/src/store.js:458-463 | The maps are unioned; a record on both sides is the imported one, and each other record comes from its own side |
| Domain.CardOrderConcat | frontend/src/store.js:187-189 | The learning order is the scoped lectures' card lists laid end to end, in scope order |
| Domain.CardOrderMembers | frontend/src/store.js:187-189 | A card is in the order exactly when some existing scoped lecture lists it; missing lectures add nothing |
| Domain.CardOrderExists | frontend/src/store.js:182-189 | On a linked graph every card of the order exists and belongs to a scoped lecture |
| Domain.Clamp | frontend/src/store.js:237-240 | The cursor lies in `[0, max(0, len - 1)]`, and is `cursor + delta` whenever that is in range |
| Domain.AddSourceSpec | frontend/src/store.js:89-107 | Recording a source appends it to the lecture's sources and changes nothing else |
| Links.CreateSetLinked | frontend/src/store.js:30-40 | `createSet` keeps references two-sided |
| Links.AddLectureLinked | frontend/src/store.js:42-58 | `addLecture` keeps references two-sided |
| Links.DeleteSetLinked | frontend/src/store.js:318-346 | `deleteSet` keeps references two-sided |
| Links.DeleteLectureLinked | frontend/src/store.js:348-372 | `deleteLecture` keeps references two-sided |
| Links.AddCardLinked | frontend/src/store.js:374-394 | `addCard` keeps references two-sided |
| Links.DeleteCardLinked | frontend/src/store.js:396-414 | `deleteCard` keeps references two-sided |
| Links.EditCardLinked | frontend/src/store.js:416-430 | `editCard` keeps references two-sided |
| Links.ImportDisjointLinked | frontend/src/store.js:455-464 | Importing a linked snapshot whose ids are all new keeps references two-sided |
| Links.AddSourceLinked | frontend/src/store.js:89-107 | Recording a source keeps references two-sided |
| Links.RestatLinked | frontend/src/store.js:224-233 | New stats keep references two-sided |
| Merge.ExistingByKeySpec | frontend/src/store.js:122-125 | The index files only the lecture's cards, each under its normalized term, and every listed card's term has an entry |
| Merge.MergeExisting | frontend/src/store.js:130-136 | Stored cards keep id, term, lecture and stats; cards of other lectures are unchanged; a changed explanation comes from a row with the card's key whose explanation is strictly longer |
| Merge.MergedChange | frontend/src/store.js:133-136 | A merged card differs from the stored one at most in its explanation, and then only by a strictly longer row with its key |
| Merge.MergeNewCards | frontend/src/store.js:137-147 | Unmatched rows become new cards of the lecture, in order, trimmed and with zero stats, under consecutive new ids; no other card appears |
| Merge.MergeNewLecture | frontend/src/store.js:150-155 | The new ids are appended after the lecture's existing card ids; other lectures and the sets are unchanged |
| Merge.MergeLinked | frontend/src/store.js:120-161 | The merge keeps references two-sided |
| Merge.DuplicateNewKeys | frontend/src/store.js:122-147 | Two new rows with the same key become two distinct cards of the lecture with the same key |
| Merge.IndexCards | frontend/src/store.js:122-125 | The `forEach` loop builds the index of existing cards |
| Merge.MergeRow | frontend/src/store.js:131-147 | One pass of the row loop is one step of the merge fold |
| Merge.MergeRows | frontend/src/store.js:122-148 | The loop over the generated rows computes the merge fold |
| Merge.MergeGraph | frontend/src/store.js:120-161 | The upsert produces the merged graph and draws one id per unmatched row |
| Random.Pick | frontend/src/store.js:11 | A draw lies below its bound and uses one element of the stream |
| Random.Shuffle | frontend/src/store.js:8-15 | The in-place shuffle returns a permutation of its input, and draws `|s| - 1` numbers, one for each position from the last down to the second |
| Extractor.PiecesMembers | frontend/src/App.jsx:385-388 | The lines are exactly the non-empty trimmed pieces, and each is fully trimmed |
| Extractor.PiecesConcat | frontend/src/App.jsx:385-388 | Line preprocessing keeps the input order |
| Extractor.TableRowsMembers | frontend/src/App.jsx:390-407 | With a header line present, the table rows are exactly the rows of the non-rule lines (two cells at least, first cell without "term"); without one there are none |
| Extractor.LazyMatchLeast | frontend/src/App.jsx:410 | The lazy first capture is the shortest one after which the rest of the pattern matches |
| Extractor.DelimiterMatchesAt | frontend/src/App.jsx:410 | A delimiter followed by a character starts a match |
| Extractor.DelimiterAtFirst | frontend/src/App.jsx:410 | The line is split at its first delimiter |
| Extractor.DelimiterRow | frontend/src/App.jsx:411-415 | A delimiter row has a non-empty term shorter than 120 UTF-16 code units and a non-empty explanation |
| Extractor.DelimiterRowParts | frontend/src/App.jsx:410-415 | A line yields a row exactly when the first capture with its bullet stripped and trimmed, and the trimmed second capture, are non-empty and the term is short enough; the row is those two strings |
| Extractor.HyphenLineYieldsNothing | frontend/src/App.jsx:410-412 | A line starting with a hyphen gives no delimiter row |
| Extractor.HeadingRowsMembers | frontend/src/App.jsx:419-428 | The heading rows are exactly the pairs (heading term of line `i`, line `i + 1`) where line `i` is a heading and line `i + 1` has a word character |
| Extractor.DedupFirstOccurrence | frontend/src/App.jsx:430-437 | The kept rows follow the order in which their keys first occur among the candidates |
| Extractor.DedupDistinct | frontend/src/App.jsx:430-436 | The kept rows have pairwise distinct normalized terms |
| Extractor.DedupLongest | frontend/src/App.jsx:431-435 | Every candidate's key is kept, with an explanation at least as long as the candidate's in UTF-16 code units |
| Extractor.DedupFirstWins | frontend/src/App.jsx:434 | Each kept row is a candidate that no earlier candidate with its key matches in length, so the first longest wins ties |
| Extractor.Cap | frontend/src/App.jsx:437 | The cap keeps a prefix of at most 500 rows, and all rows when there are no more than 500 |
| Extractor.LocalCardsDistinct | frontend/src/App.jsx:382-438 | The extractor returns at most 500 rows with pairwise distinct normalized terms |
| Extractor.CollectRows | frontend/src/App.jsx:409-417 | A pass's `rows.push` loop collects the rows of its lines, in order |
| Extractor.DedupByKey | frontend/src/App.jsx:430-437 | The `byKey` loop and `Array.from(byKey.values())` compute the dedup |
| Extractor.CandidateRows | frontend/src/App.jsx:390-428 | The three passes, in order, produce the candidate rows |
| Extractor.GenerateCardsLocally | frontend/src/App.jsx:382-438 | The extractor computes the local cards of its text |
| Evaluation.Present | frontend/src/store.js:561 | The present cards are no more than the ids |
| Evaluation.PresentMembers | frontend/src/store.js:561 | A card is present exactly when one of the ids names it |
| Evaluation.PresentAll | frontend/src/store.js:561 | When every id names a card, nothing is dropped and the order is kept |
| Evaluation.OthersCount | frontend/src/store.js:565 | The filter drops exactly the cards with the item's id |
| Evaluation.SliceTo | frontend/src/store.js:578 | `slice(0, n)` is a prefix of length `min(n, len)`, counting a negative `n` from the end |
| Evaluation.FindIndex | frontend/src/store.js:579 | `findIndex` gives the first option from the card, or -1 when there is none |
| Evaluation.Distractors | frontend/src/store.js:564-574 | The loop takes the first `nOptions - 1` cards of the shuffled pool as cross options, each with a new id |
| Evaluation.OptionIds | frontend/src/store.js:568-578 | The options carry distinct ids drawn during the item |
| Evaluation.DistractorsCross | frontend/src/store.js:565-574 | Every distractor is the explanation of another card of the pool |
| Evaluation.OptionAnswer | frontend/src/store.js:575-579 | For `nOptions >= 1` there are `1 + distractors` options; `answerIndex` is the card's own option, and every other option is a distractor; for `nOptions <= 0` there is no option and the index is -1 |
| Evaluation.MakeItem | frontend/src/store.js:563-588 | An item's stem, card and lecture are the card's; with `nOptions >= 1` it has `1 + min(nOptions - 1, others)` options with the card's own at `answerIndex` |
| Evaluation.MakeEvaluationItems | frontend/src/store.js:560-589 | One item per present card, in order, each as `MakeItem` states, with all ids distinct and ascending |
| Records.Patch | frontend/src/store.js:230 | Every field the change has overwrites the stats, and the others stay |
| Records.NextStreak | frontend/src/store.js:286-297 | The new streak is never negative: old + 1 on a right answer (an absent streak counts as 0), 0 on a wrong one |
| Records.StreakCountsRun | frontend/src/store.js:276-301 | After answers in turn, the streak counts the right answers since the last wrong one |
| Records.Upsert | frontend/src/store.js:64-67 | `Object.values(jobs)` order: a new key goes last and an old one stays put |
| Records.FirstQueued | frontend/src/store.js:73-76 | A job is found exactly when some listed job of the lecture is queued, and then it is one of them |
| Records.FindItem | frontend/src/store.js:279 | `find` gives an item with the id exactly when one exists |
| Records.ByBackendPresent | frontend/src/store.js:86-171 | With the lecture present, the backend pipeline records the source, then merges the rows or fails |
| Records.InBrowserPresent | frontend/src/App.jsx:104-173 | With the lecture present, the in-browser pipeline records the source and merges the extracted rows |
| Records.IngestStages | frontend/src/store.js:71-180 | Ingestion starts extracting at 2; progress rises strictly to at most 10; it ends done exactly when the lecture exists and the rows merge; it ends in error exactly when the lecture exists and generation failed; if not done, only the source was recorded |
| Records.IngestRecordsSource | frontend/src/store.js:86-113 | Whatever the outcome, the sets and other lectures are untouched, and an existing lecture keeps its new source even after a failure |
| Records.InBrowserNeverErrs | frontend/src/App.jsx:91-180 | The in-browser pipeline never ends in error, and ends done whenever the lecture and its cards exist |
| Records.ByBackendErrs | frontend/src/store.js:116-171 | The backend pipeline ends in error exactly when the lecture exists and generation or the merge lookup failed |
| Records.ImportOwnExport | frontend/src/store.js:435-464 | Importing the store's own export gives back the same maps |
| Records.ImportNothing | frontend/src/store.js:459-461 | A file without maps changes no map |
| Store.State.constructor | frontend/src/store.js:19-28 | The initial store is empty, on the lectures tab, and valid |
| Store.State.NewId | frontend/src/store.js:5-6 | `newId()` returns the counter and bumps it |
| Store.State.CreateSet | frontend/src/store.js:30-40 | The graph is `CreateSet` of the old one under a new id, which becomes the current set |
| Store.State.AddLecture | frontend/src/store.js:42-58 | The graph is `AddLecture` of the old one under a new id; the set must exist |
| Store.State.DeleteSet | frontend/src/store.js:318-346 | The graph is `DeleteSet` of the old one; a current selection of the set is cleared |
| Store.State.DeleteLecture | frontend/src/store.js:348-372 | The graph is `DeleteLecture` of the old one |
| Store.State.AddCard | frontend/src/store.js:374-394 | The graph is `AddCard` of the old one under a new id; the lecture must exist |
| Store.State.DeleteCard | frontend/src/store.js:396-414 | The graph is `DeleteCard` of the old one |
| Store.State.EditCard | frontend/src/store.js:416-430 | The graph is `EditCard` of the old one |
| Store.State.SetTab | frontend/src/store.js:432 | Only the tab changes |
| Store.State.SetCurrentSet | frontend/src/store.js:433 | Only the current set changes |
| Store.State.ExportJSON | frontend/src/store.js:435-444 | The document has version 1, the store's maps and runs, and no jobs |
| Store.State.ImportJSON | frontend/src/store.js:455-464 | The maps are `Import` of the old ones, and the runs are replaced only when the file has runs |
| Store.State.StartLearning | frontend/src/store.js:182-208 | A new run over the scoped card order, with the cursor at 0 and no events, shown on the learning tab |
| Store.State.LogLearningEvent | frontend/src/store.js:210-223 | The event is appended to the run's events; an unknown run changes nothing |
| Store.State.BumpCardStats | frontend/src/store.js:224-233 | The card's stats become the patched stats |
| Store.State.MoveCursor | frontend/src/store.js:234-247 | Only the run's cursor changes, to the clamped value |
| Store.State.StartEvaluation | frontend/src/store.js:249-275 | A new run whose items are `MakeEvaluationItems` of the scoped present cards, with no responses, shown on the evaluation tab |
| Store.State.AnswerMCQ | frontend/src/store.js:276-301 | Exactly one response is appended, correct when the chosen index is the answer; the card's streak becomes `NextStreak` |
| Store.State.FinishEvaluation | frontend/src/store.js:302-314 | Only `completedAt` of the run is set |
| Store.State.EnqueueJob | frontend/src/store.js:60-69 | A queued job at progress 0 under a new id |
| Store.State.SetStage | frontend/src/store.js:108-111 | Only the job's stage and progress change |
| Store.State.BeginJob | frontend/src/store.js:72-84 | The lecture's first queued job, or a new id, goes to extracting at 2 |
| Store.State.DrawSource | frontend/src/store.js:87-88 | The source id is drawn, then the chunk ids; with `guarded`, an empty text has no chunks |
| Store.State.AttachSource | frontend/src/store.js:89-113 | The graph is `AddSource` of the old one |
| Store.State.MergeGenerated | frontend/src/store.js:120-161 | The graph is `MergeInto` of the old one, and the counter moves past one id per new card |
| Store.State.Generate | frontend/src/store.js:108-179 | The job goes to generating; then the rows merge and the job finishes, or with no rows the job stops (in error when caught) and nothing else changes |
| Store.State.Record | frontend/src/store.js:89-179 | The source is recorded, then `Generate` runs |
| Store.State.Process | frontend/src/store.js:86-179 | The graph, counter and stages are the backend pipeline's; a missing lecture stops it before any job change |
| Store.State.RecordLocally | frontend/src/App.jsx:106-173 | The source is recorded and the extractor's rows from its joined chunks are merged |
| Store.State.ProcessLocally | frontend/src/App.jsx:103-179 | The graph, counter and stages are the in-browser pipeline's |
| Store.State.IngestText | frontend/src/store.js:71-180 | The job id is the queued job's or a new one; the trace of job records follows the backend pipeline's stages; the final graph and counter are its outcome |
| Store.State.IngestTextLocally | frontend/src/App.jsx:91-180 | As `IngestText`, with the in-browser pipeline as the outcome |
| Summary.ItemsById | frontend/src/components/SummaryPanel.jsx:9-13 | Every key holds an item of the run carrying that id |
| Summary.ItemsByIdKeys | frontend/src/components/SummaryPanel.jsx:9-13 | Every item's id is a key |
| Summary.ItemsByIdLast | frontend/src/components/SummaryPanel.jsx:9-13 | A later item wins: each key holds the last item of the run carrying that id |
| Summary.Rows | frontend/src/components/SummaryPanel.jsx:16-31 | There is one row per response |
| Summary.RowsSpec | frontend/src/components/SummaryPanel.jsx:16-31 | Row `i` is about response `i`'s item: its id, stem, lecture title, correct answer's text and the response's verdict; its chosen text is that option's text, or "" when the index is out of range |
| Summary.Keep | frontend/src/components/SummaryPanel.jsx:59-60 | The filter keeps only rows of the list that carry the wanted flag |
| Summary.WrongRightPartition | frontend/src/components/SummaryPanel.jsx:59-60 | `wrong` and `right` split the rows: each row goes to exactly one side |
| Summary.WrongRightSizes | frontend/src/components/SummaryPanel.jsx:59-60 | `|wrong| + |right| == |rows|` |
| Summary.CountCorrect | frontend/src/App.jsx:983 | The count of correct responses, at most the number of responses |
| Summary.CountCorrectPositions | frontend/src/App.jsx:983 | The count is the number of positions holding a correct response |
| Summary.PanelTotalsSpec | frontend/src/components/SummaryPanel.jsx:34-37 | `totals.correct` is the number of correct responses, and `totals.total` the number of items |
| Summary.EvalTotals | frontend/src/App.jsx:982-985 | The correct count is at most the number of responses; `EvalTalliesSpec` shows these are the panel's totals |
| Summary.ScorePercent | frontend/src/components/SummaryPanel.jsx:69 | The percentage is within one half of `100 * correct / max(1, total)`, rounding halves up, and at most 100 when `correct <= total` |
| Summary.TallyList | frontend/src/components/SummaryPanel.jsx:56 | `[...map.values()]` lists one tally per key, in key order |
| Summary.ItemTalliesCounts | frontend/src/components/SummaryPanel.jsx:42-48 | The items pass keeps a tally for exactly the existing lectures of the items, each counting its items |
| Summary.ItemTalliesOrder | frontend/src/components/SummaryPanel.jsx:42-48 | Tallies open in the order their lectures first occur among the items |
| Summary.ItemTalliesSpec | frontend/src/components/SummaryPanel.jsx:42-48 | One tally per distinct existing lecture, in first-appearance order, counting its items; no correct answer yet |
| Summary.ResponseTallies | frontend/src/components/SummaryPanel.jsx:49-55 | The responses pass opens no tally and closes none, and keeps their order |
| Summary.AddResponseSpec | frontend/src/components/SummaryPanel.jsx:49-55 | A correct response adds one to its lecture's tally, and changes no other tally |
| Summary.ResponseTalliesSpec | frontend/src/components/SummaryPanel.jsx:49-55 | Under each lecture the pass adds the correct responses whose item belongs to it, and keeps the totals |
| Summary.ItemKeyTallied | frontend/src/components/SummaryPanel.jsx:49-53 | The item a response names, if its lecture exists, has a tally |
| Summary.PanelTalliesSpec | frontend/src/components/SummaryPanel.jsx:40-57 | `byLecture`: one entry per distinct existing lecture among the items, in first-appearance order; `total` counts its items and `correct` its correct responses |
| Summary.EvalResponseTallies | frontend/src/App.jsx:977-981 | The responses pass opens no tally and closes none, and keeps their order |
| Summary.EvalResponseTalliesSpec | frontend/src/App.jsx:977-981 | Each lecture's `correct` counts the correct responses whose found item names it |
| Summary.EvalTalliesSpec | frontend/src/App.jsx:966-981 | `EvalSummary` has the panel's tallies and totals, with `correct` counted through `find` |
| Summary.TallyItems | frontend/src/components/SummaryPanel.jsx:42-48 | The `forEach` over the items computes the items pass |
| Summary.PanelTallies | frontend/src/components/SummaryPanel.jsx:40-57 | The two loops compute `byLecture` |
| Summary.EvalSummary | frontend/src/App.jsx:966-985 | The two loops compute the tallies, and the totals are computed alongside |
| ScopeSelect.Without | frontend/src/components/ScopeSelect.jsx:21 | `Set.delete` keeps exactly the other ids |
| ScopeSelect.ToggleAll | frontend/src/components/ScopeSelect.jsx:13 | "all" becomes the empty list, and any list becomes "all" |
| ScopeSelect.ToggleOne | frontend/src/components/ScopeSelect.jsx:15-19 | From "all", toggling gives `[lid]` |
| ScopeSelect.ToggleOneMembers | frontend/src/components/ScopeSelect.jsx:20-24 | `lid` is in the result exactly when it was not in the list, and every other id stays as it was |
| ScopeSelect.ToggleOneToAll | frontend/src/components/ScopeSelect.jsx:20-24 | The result is "all" exactly when the list held `lid` and nothing else |
| ScopeSelect.ToggleOneShape | frontend/src/components/ScopeSelect.jsx:20-24 | A resulting list is never empty and never holds an id twice |
| ScopeSelect.ToggleOneOrder | frontend/src/components/ScopeSelect.jsx:20-23 | The other ids keep their first-occurrence order, and an added `lid` comes last |
| ScopeSelect.ToggleOneTwice | frontend/src/components/ScopeSelect.jsx:15-25 | Toggling a new id twice on a list without duplicates gives the list back |
| FlashGen.NormKey | backend/utils/flashgen.py:7-8 | The key holds only `a`-`z` and `0`-`9`; `None` and "" give "" |
| FlashGen.NormKeyIdempotent | backend/utils/flashgen.py:7-8 | A key is its own key |
| FlashGen.MentionsAnyIff | backend/utils/flashgen.py:15 | `any(b in s ...)` holds exactly when some term occurs in `s` |
| FlashGen.LooksAdminIff | backend/utils/flashgen.py:12-15 | A card looks administrative exactly when an admin term occurs in its lowercased term or explanation |
| FlashGen.StrippedFacts | backend/utils/flashgen.py:24 | A stored card is stripped and keeps its key |
| FlashGen.DedupeTable | backend/utils/flashgen.py:17-24 | The dict's insertion order lists each stored key once, and no stored key is empty |
| FlashGen.DedupeKeys | backend/utils/flashgen.py:20-24 | Every stored card sits under its own key |
| FlashGen.DedupeOrder | backend/utils/flashgen.py:17-25 | The output follows the first-occurrence order of the non-empty keys |
| FlashGen.DedupeSpec | backend/utils/flashgen.py:17-25 | One card per non-empty key, in first-occurrence order, with pairwise distinct keys; empty keys are skipped |
| FlashGen.DedupeFrom | backend/utils/flashgen.py:24 | Every stored card is the stripped form of an input card |
| FlashGen.DedupeReplace | backend/utils/flashgen.py:21-24 | A later card replaces the stored one only if its explanation is strictly longer than the stored, stripped one |
| FlashGen.DedupeLongest | backend/utils/flashgen.py:22-24 | On stripped cards, every key keeps an explanation at least as long as any card's with that key |
| FlashGen.DedupeCards | backend/utils/flashgen.py:17-25 | The loop computes `_dedupe` |
| FlashGen.CleanConcepts | backend/utils/flashgen.py:141-146 | The filter keeps at most as many concepts as the reply lists |
| FlashGen.CleanConceptsMembers | backend/utils/flashgen.py:141-146 | A concept is kept exactly when it is a stripped non-empty string from the reply, with a key, and not itself an admin term |
| FlashGen.CleanConceptsConcat | backend/utils/flashgen.py:141-146 | The filter keeps the reply's order |
| FlashGen.EnumerateFilter | backend/utils/flashgen.py:139-148 | The comprehension and the `clean` loop compute the filter; an unreadable reply gives no concepts |
| FlashGen.KeepShape | backend/utils/flashgen.py:179-184 | A kept card has a non-empty stripped term and a stripped explanation of at least six words, and is not administrative |
| FlashGen.ExpandFoldFails | backend/utils/flashgen.py:176-186 | The whole list is lost exactly when some entry raises |
| FlashGen.ExpandFoldKeeps | backend/utils/flashgen.py:178-184 | Otherwise the kept cards of the entries are returned, in entry order |
| FlashGen.ExpandResult | backend/utils/flashgen.py:156-187 | No concepts or an unreadable reply give no cards |
| FlashGen.ExpandFilter | backend/utils/flashgen.py:175-187 | The `out.append` loop, returning at the first exception, computes the entry fold |
| FlashGen.FoldRaises | backend/utils/flashgen.py:185-186 | Once an entry raises, later entries do not matter |
| FlashGen.Summarize | backend/utils/flashgen.py:47-66 | An empty text gives ""; the summary is always stripped |
| FlashGen.Unseen | backend/utils/flashgen.py:246 | The new candidates are no more than the candidates |
| FlashGen.UnseenMembers | backend/utils/flashgen.py:246 | A candidate is new exactly when its key is not the key of a covered concept |
| FlashGen.PyPrefix | backend/utils/flashgen.py:251 | `s[:n]` is a prefix of length `min(n, len)`, counting a negative `n` from the end |
| FlashGen.BatchedBefore | backend/utils/flashgen.py:251-257 | A concept batched in one round is covered at the start of every later round |
| FlashGen.RoundsSpec | backend/utils/flashgen.py:243-258 | At most `n` rounds run; only a final round finds nothing new and it stops; each batch is a prefix of its round's new concepts of length at most `expand_batch`; `covered` grows by the batches; the cards are the expansions in round order |
| FlashGen.NoKeyTwice | backend/utils/flashgen.py:243-258 | No key is batched in two rounds |
| FlashGen.BeforeCovered | backend/utils/flashgen.py:256-257 | `covered` only grows: every round's starting set and its batch are in the final one |
| FlashGen.StoppedStays | backend/utils/flashgen.py:247-248 | After a `break` later rounds change nothing |
| FlashGen.PlayRound | backend/utils/flashgen.py:244-257 | One pass of the loop body is one round |
| FlashGen.CoverageLoop | backend/utils/flashgen.py:243-260 | The loop followed by `_dedupe` computes the dedupe of the rounds' cards |
| FlashGen.NewCandidates | backend/utils/flashgen.py:246 | The comprehension computes the new candidates |
| FlashGen.ExpandFoldAdmitted | backend/utils/flashgen.py:178-184 | Every card the entry loop keeps was admitted |
| FlashGen.ExpandWithAdmitted | backend/utils/flashgen.py:174-187 | Every card an expansion call returns was admitted |
| FlashGen.RoundsAdmitted | backend/utils/flashgen.py:243-258 | Every card the rounds collect was admitted by its round's expansion |
| FlashGen.DedupeKeepsInputs | backend/utils/flashgen.py:17-25 | On stripped cards `_dedupe` returns some of its own input cards |
| FlashGen.GeneratedCards | backend/utils/flashgen.py:226-260 | Every returned flashcard is an expanded card that passed the filter, and no two share a key |
| FlashGen.GenerateIterative | backend/utils/flashgen.py:226-260 | `range(iterations)` rounds with no guidance, then `_dedupe` |
| FlashGen.GenerateWithSummary | backend/utils/flashgen.py:189-223 | The summary of the stripped text first, then the same rounds guided by it |

## Left out

- Store.State.AddLecture: requires the set to exist; the source throws a `TypeError` on a missing set after drawing an id.
- Store.State.AddCard: requires the lecture to exist, for the same reason. The id is taken from the counter, not `Date.now` and `Math.random`.
- Store.State.BumpCardStats: requires the card to exist; the source throws on reading `c.stats`.
- Store.State.MoveCursor: requires the run to exist; the source throws on reading `r.order`.
- Store.State.AnswerMCQ: requires the run, the item and its card to exist; the source throws otherwise.
- Store.State.FinishEvaluation: requires the run to exist. For an unknown id the source stores a record that holds only `completedAt`, which the model does not represent.
- Store.State.StartLearning and Store.State.StartEvaluation: with the scope "all", require the set to exist; the source throws otherwise.
- Store.State.DeleteLecture and Store.State.DeleteCard: require a parent named by the deleted record to exist. On a linked store this always holds.
- Store.State.ImportJSON: is stated to keep the store invariant only for a linked snapshot whose ids are new and below the counter. Source ids are timestamps, so the id collisions a counter allows are not modelled.
- Summary.Rows: requires every response to name an item of the run, as do the panel's totals and tallies; the source throws on `it.lectureId` otherwise.
- Summary.EvalResponseTallies: requires every response to name an item, and every correct one an item whose `lectureId` has a tally; the source throws on `agg.correct` otherwise.
- Summary.ScorePercent: uses exact arithmetic for `Math.round(x * 100)`, not floating point.
- Progress fractions are integer tenths, not floating-point numbers.
- Ids come from one counter, not from `Date.now().toString(36)`.
- Timestamps (`now()`, `createdAt`, `t`) are parameters.
- `Math.random` is an explicit stream of draws, and shuffles are proved to be permutations only.
- Lowercasing, `\s`, `trim` and `strip` are ASCII-only. Unicode case mapping and white space are not modelled.
- Lengths compared in JavaScript (`p.length`, `current.length`, `term.length`, `explanation.length`) are UTF-16 code units, `Utf16Len`, which counts two units for a character above U+FFFF. Python's `len` in `_dedupe` counts characters (`Length` with `CodePoints`). A Dafny `char` is a Unicode scalar value, so lone surrogates are not represented.
- The learning event's contents are an uninterpreted value.
- The `generateCardsLocally` in `frontend/src/store.js` is never called and is not modelled separately; the copy in `frontend/src/App.jsx` is.
- Only `ingestText` of the `frontend/src/App.jsx` store copy is modelled separately; its other actions are those of `frontend/src/store.js`.
- Async interleaving of concurrent ingestions is not modelled: each ingestion runs its stages in sequence.
- The network call, `JSON.parse`/`JSON.stringify`, the Blob and the download link of `exportJSON`, and reading the imported file are I/O and are not modelled.
- React rendering, keyboard handling and the guards in the views are not modelled.
- The language-model calls, their prompts, `text[:12000]` and the `enumerate_batch` limit (which only goes into the prompt) are not modelled. A call is a function of the round, the covered set or batch, and the guidance paragraph.
- A JSON reply is abstracted to strings, falsy values and other truthy values. The `concepts` and `flashcards` fields are taken to be lists.
- `generate_flashcards_iterative_debug` and the `print` calls of `backend/utils/flashgen.py` are not modelled.
- PDF extraction, the FastAPI routes and the OpenAI client are not part of this model.
- FlashGen.GenerateIterative and FlashGen.GenerateWithSummary: describe only runs in which every language-model call returns. A call that raises (network, authentication, rate limit) propagates out of `_summarize`, `_enumerate_concepts` and `_expand_concepts` (backend/utils/flashgen.py:51, 129, 165), and so out of both generators, with no cards. The modelled calls always return a reply, where `None` stands only for a reply that is not valid JSON.
