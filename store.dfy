/**
 * The zustand store of frontend/src/store.js: the linked sets, lectures and cards, the
 * processing jobs, the learning and evaluation runs and the UI selection, with one method
 * per store action. Each `set((st) => ...)` call is an assignment to the fields it returns.
 * `IngestTextLocally` is the older pipeline of frontend/src/App.jsx, which extracts cards
 * in the browser.
 *
 * Ids: `newId()` becomes the counter `nextId`; a draw takes its current value and bumps
 * it, so a drawn id is above every id in use (`Valid`). `now()`, the backend's answer and
 * `Math.random()` become parameters.
 */
module Store {
  import opened Wrappers
  import opened Keyed
  import opened Domain
  import opened Links
  import opened Merge
  import opened Records
  import opened Invariant
  import Chunking
  import Evaluation
  import Extractor
  import Text

  class State {
    var sets: map<Id, FlashcardSet>
    var lectures: map<Id, Lecture>
    var cards: map<Id, Card>
    var jobs: map<Id, Job>
    /** The keys of `jobs` in insertion order: the order `Object.values(jobs)` yields them. */
    var jobOrder: seq<Id>
    var runs: Runs
    var ui: Ui
    /** The next value `newId()` hands out. */
    var nextId: nat

    /** The linked maps as one value, the argument of the transitions of module Domain. */
    function Data(): Graph
      reads this
    {
      Graph(sets, lectures, cards)
    }

    /** References are two-sided, ids in use lie below the counter, jobs are listed once. */
    ghost predicate Valid()
      reads this
    {
      Inv(Data(), jobs, jobOrder, runs, nextId)
    }

    /** The initial store: everything empty, the lectures tab showing, nothing selected. */
    constructor ()
      ensures Valid()
      ensures sets == map[] && lectures == map[] && cards == map[] && jobs == map[] && jobOrder == []
      ensures runs == Runs(map[], map[]) && ui == InitialUi
    {
      sets, lectures, cards := map[], map[], map[];
      jobs, jobOrder := map[], [];
      runs := Runs(map[], map[]);
      ui := InitialUi;
      nextId := 0;
      EmptyInv();
    }

    /** `newId()`. */
    method NewId() returns (id: Id)
      modifies this`nextId
      ensures id == old(nextId) && nextId == id + 1
      ensures old(Valid()) ==> Valid()
    {
      if Valid() {
        BumpInv(Data(), jobs, jobOrder, runs, nextId, nextId + 1);
      }
      id := nextId;
      nextId := nextId + 1;
    }

    // ---- sets, lectures, cards -----------------------------------------------------

    /** `createSet(title)`: a new empty set, which becomes the current one. */
    method CreateSet(title: string, now: int) returns (id: Id)
      modifies this`sets, this`ui, this`nextId
      ensures id == old(nextId) && nextId == id + 1
      ensures Data() == Domain.CreateSet(old(Data()), id, title, now)
      ensures ui == old(ui).(currentSetId := Some(id))
      ensures old(Valid()) ==> Valid()
    {
      if Valid() {
        CreateSetInv(Data(), jobs, jobOrder, runs, nextId, title, now);
      }
      id := nextId;
      nextId := nextId + 1;
      sets := sets[id := FlashcardSet(id, title, now, [])];
      ui := ui.(currentSetId := Some(id));
    }

    /** `addLecture(setId, title)`: a new empty lecture, appended to its set. The set must exist. */
    method AddLecture(setId: Id, title: string) returns (id: Id)
      requires setId in sets
      modifies this`sets, this`lectures, this`nextId
      ensures id == old(nextId) && nextId == id + 1
      ensures Data() == Domain.AddLecture(old(Data()), id, setId, title)
      ensures old(Valid()) ==> Valid()
    {
      if Valid() {
        AddLectureInv(Data(), jobs, jobOrder, runs, nextId, setId, title);
      }
      id := nextId;
      nextId := nextId + 1;
      var h := Domain.AddLecture(Data(), id, setId, title);
      sets, lectures := h.sets, h.lectures;
    }

    /**
     * `deleteSet(setId)`: the set, the lectures naming it and their cards go; a current
     * selection of the set is cleared.
     */
    method DeleteSet(setId: Id)
      modifies this`sets, this`lectures, this`cards, this`ui
      ensures Data() == Domain.DeleteSet(old(Data()), setId)
      ensures ui == old(ui).(currentSetId := if old(ui).currentSetId == Some(setId) then None else old(ui).currentSetId)
      ensures old(Valid()) ==> Valid()
    {
      if Valid() {
        DeleteSetInv(Data(), jobs, jobOrder, runs, nextId, setId);
      }
      var h := Domain.DeleteSet(Data(), setId);
      sets, lectures, cards := h.sets, h.lectures, h.cards;
      if ui.currentSetId == Some(setId) {
        ui := ui.(currentSetId := None);
      }
    }

    /** `deleteLecture(lectureId)`: the lecture and its cards go and its set forgets it. */
    method DeleteLecture(lectureId: Id)
      requires lectureId in lectures ==> lectures[lectureId].setId in sets
      modifies this`sets, this`lectures, this`cards
      ensures Data() == Domain.DeleteLecture(old(Data()), lectureId)
      ensures old(Valid()) ==> Valid()
    {
      if Valid() {
        DeleteLectureInv(Data(), jobs, jobOrder, runs, nextId, lectureId);
      }
      var h := Domain.DeleteLecture(Data(), lectureId);
      sets, lectures, cards := h.sets, h.lectures, h.cards;
    }

    /** `addCard(lectureId, term, explanation)`: a new card with trimmed text. The lecture must exist. */
    method AddCard(lectureId: Id, term: string, explanation: string) returns (id: Id)
      requires lectureId in lectures
      modifies this`lectures, this`cards, this`nextId
      ensures id == old(nextId) && nextId == id + 1
      ensures Data() == Domain.AddCard(old(Data()), id, lectureId, term, explanation)
      ensures old(Valid()) ==> Valid()
    {
      if Valid() {
        AddCardInv(Data(), jobs, jobOrder, runs, nextId, lectureId, term, explanation);
      }
      id := nextId;
      nextId := nextId + 1;
      var h := Domain.AddCard(Data(), id, lectureId, term, explanation);
      lectures, cards := h.lectures, h.cards;
    }

    /** `deleteCard(cardId)`: the card goes and its lecture forgets it. */
    method DeleteCard(cardId: Id)
      requires cardId in cards ==> cards[cardId].lectureId in lectures
      modifies this`lectures, this`cards
      ensures Data() == Domain.DeleteCard(old(Data()), cardId)
      ensures old(Valid()) ==> Valid()
    {
      if Valid() {
        DeleteCardInv(Data(), jobs, jobOrder, runs, nextId, cardId);
      }
      var h := Domain.DeleteCard(Data(), cardId);
      lectures, cards := h.lectures, h.cards;
    }

    /** `editCard(cardId, term, explanation)`: new trimmed text; an unknown id changes nothing. */
    method EditCard(cardId: Id, term: string, explanation: string)
      modifies this`cards
      ensures Data() == Domain.EditCard(old(Data()), cardId, term, explanation)
      ensures old(Valid()) ==> Valid()
    {
      if Valid() {
        EditCardInv(Data(), jobs, jobOrder, runs, nextId, cardId, term, explanation);
      }
      if cardId in cards {
        cards := cards[cardId := cards[cardId].(term := Text.Trim(term), explanation := Text.Trim(explanation))];
      }
    }

    /** `setTab(tab)`. */
    method SetTab(tab: string)
      modifies this`ui
      ensures ui == old(ui).(tab := tab)
    {
      ui := ui.(tab := tab);
    }

    /** `setCurrentSet(id)`; the id is not checked. */
    method SetCurrentSet(id: Option<Id>)
      modifies this`ui
      ensures ui == old(ui).(currentSetId := id)
    {
      ui := ui.(currentSetId := id);
    }

    // ---- export and import ---------------------------------------------------------

    /** `exportJSON()`'s document, before it is serialized. */
    method ExportJSON() returns (e: Exported)
      ensures e.version == 1 && e.jobs == map[] && e.runs == runs
      ensures e.data.sets.Some? && e.data.lectures.Some? && e.data.cards.Some?
      ensures SnapshotGraph(e.data) == Data()
    {
      e := Exported(1, Snapshot(Some(sets), Some(lectures), Some(cards)), map[], runs);
    }

    /**
     * `importJSON(file)` once the file is parsed: each map is unioned with the imported one,
     * the imported records winning, and the runs are replaced when the file has them.
     */
    method ImportJSON(d: Snapshot, importedRuns: Option<Runs>)
      modifies this`sets, this`lectures, this`cards, this`runs
      ensures Data() == Import(old(Data()), d)
      ensures runs == importedRuns.GetOr(old(runs))
      ensures old(Valid()) && Linked(SnapshotGraph(d)) && Disjoint(old(Data()), SnapshotGraph(d))
        && IdsBelow(SnapshotGraph(d), old(nextId)) && RunIdsBelow(importedRuns.GetOr(old(runs)), old(nextId))
        ==> Valid()
    {
      if Valid() && Linked(SnapshotGraph(d)) && Disjoint(Data(), SnapshotGraph(d))
        && IdsBelow(SnapshotGraph(d), nextId) && RunIdsBelow(importedRuns.GetOr(runs), nextId)
      {
        ImportInv(Data(), jobs, jobOrder, runs, nextId, d, importedRuns.GetOr(runs));
      }
      var h := Import(Data(), d);
      sets, lectures, cards := h.sets, h.lectures, h.cards;
      runs := importedRuns.GetOr(runs);
    }

    // ---- learning and evaluation runs ----------------------------------------------

    /**
     * `startLearning(setId, scope)`: a run over the cards of the scoped lectures, in scope
     * order, its cursor on the first; the learning tab shows it. `"all"` reads the set, which
     * must exist.
     */
    method StartLearning(setId: Id, scope: Scope, now: int) returns (runId: Id)
      requires scope.All? ==> setId in sets
      modifies this`runs, this`ui, this`nextId
      ensures runId == old(nextId) && nextId == runId + 1
      ensures runs == old(runs).(learning := old(runs).learning[runId :=
        LearningRun(runId, setId, scope, now, CardOrder(lectures, ScopeLectures(sets, setId, scope)), 0, [])])
      ensures ui == old(ui).(tab := "learning", currentRunId := Some(runId))
      ensures old(Valid()) ==> Valid()
    {
      var run := LearningRun(nextId, setId, scope, now, CardOrder(lectures, ScopeLectures(sets, setId, scope)), 0, []);
      if Valid() {
        NewLearningInv(Data(), jobs, jobOrder, runs, nextId, run);
      }
      runId := nextId;
      nextId := nextId + 1;
      runs := runs.(learning := runs.learning[runId := run]);
      ui := ui.(tab := "learning", currentRunId := Some(runId));
    }

    /** `logLearningEvent(runId, event)`: the event is appended; an unknown run changes nothing. */
    method LogLearningEvent(runId: Id, event: LearningEvent)
      modifies this`runs
      ensures runId in old(runs).learning ==>
        runs == old(runs).(learning := old(runs).learning[runId :=
          old(runs).learning[runId].(events := old(runs).learning[runId].events + [event])])
      ensures runId !in old(runs).learning ==> runs == old(runs)
      ensures old(Valid()) ==> Valid()
    {
      if runId in runs.learning {
        var run := runs.learning[runId];
        if Valid() {
          LearningUpdateInv(Data(), jobs, jobOrder, runs, nextId, runId, run.(events := run.events + [event]));
        }
        runs := runs.(learning := runs.learning[runId := run.(events := run.events + [event])]);
      }
    }

    /** `bumpCardStats(cardId, change)`: the fields `change` has overwrite the card's stats. The card must exist. */
    method BumpCardStats(cardId: Id, change: StatsPatch)
      requires cardId in cards
      modifies this`cards
      ensures Data() == Restat(old(Data()), cardId, Patch(old(cards)[cardId].stats, change))
      ensures old(Valid()) ==> Valid()
    {
      var c := cards[cardId];
      if Valid() {
        RestatInv(Data(), jobs, jobOrder, runs, nextId, cardId, Patch(c.stats, change));
      }
      cards := cards[cardId := c.(stats := Patch(c.stats, change))];
    }

    /** `moveCursor(runId, delta)`: the cursor moves by `delta`, kept on the order. The run must exist. */
    method MoveCursor(runId: Id, delta: int)
      requires runId in runs.learning
      modifies this`runs
      ensures var r := old(runs).learning[runId];
        runs == old(runs).(learning := old(runs).learning[runId := r.(cursor := Clamp(r.cursor, delta, |r.order|))])
      ensures old(Valid()) ==> Valid()
    {
      var r := runs.learning[runId];
      if Valid() {
        LearningUpdateInv(Data(), jobs, jobOrder, runs, nextId, runId, r.(cursor := Clamp(r.cursor, delta, |r.order|)));
      }
      runs := runs.(learning := runs.learning[runId := r.(cursor := Clamp(r.cursor, delta, |r.order|))]);
    }

    /**
     * `startEvaluation(setId, scope, nOptions)`: one multiple-choice item per present card of
     * the scoped lectures, each item's ids drawn after the run's own; the evaluation tab
     * shows it. `rnd` is the stream the shuffles read and `rest` what they leave of it.
     */
    method StartEvaluation(setId: Id, scope: Scope, nOptions: int, now: int, rnd: seq<nat>)
      returns (runId: Id, items: seq<Evaluation.Item>, rest: seq<nat>)
      requires scope.All? ==> setId in sets
      modifies this`runs, this`ui, this`nextId
      ensures var pool := Evaluation.Present(CardOrder(lectures, ScopeLectures(sets, setId, scope)), cards);
        && runId == old(nextId) && |items| == |pool|
        && Evaluation.RunItems(items, pool, nOptions, runId + 1, nextId)
      ensures runs == old(runs).(evaluation := old(runs).evaluation[runId := EvaluationRun(runId, setId, scope, now, items, [], None)])
      ensures ui == old(ui).(tab := "evaluation", currentRunId := Some(runId))
      ensures old(Valid()) ==> Valid()
    {
      runId := nextId;
      var order := CardOrder(lectures, ScopeLectures(sets, setId, scope));
      var after;
      items, after, rest := Evaluation.MakeEvaluationItems(order, cards, nOptions, runId + 1, rnd);
      var run := EvaluationRun(runId, setId, scope, now, items, [], None);
      if Valid() {
        NewEvaluationInv(Data(), jobs, jobOrder, runs, nextId, after, run);
      }
      nextId := after;
      runs := runs.(evaluation := runs.evaluation[runId := run]);
      ui := ui.(tab := "evaluation", currentRunId := Some(runId));
    }

    /**
     * `answerMCQ(runId, itemId, chosenIndex)`: the response is recorded and the card's streak
     * grows by one on a right answer and drops to zero on a wrong one. The run, the item and
     * its card must exist; a finished run still takes answers.
     */
    method AnswerMCQ(runId: Id, itemId: Id, chosenIndex: int, now: int) returns (correct: bool)
      requires runId in runs.evaluation
      requires FindItem(runs.evaluation[runId].items, itemId).Some?
      requires FindItem(runs.evaluation[runId].items, itemId).value.cardId in cards
      modifies this`runs, this`cards
      ensures var run := old(runs).evaluation[runId];
        var item := FindItem(run.items, itemId).value;
        var card := old(cards)[item.cardId];
        && correct == (chosenIndex == item.answerIndex)
        && runs == old(runs).(evaluation := old(runs).evaluation[runId :=
             run.(responses := run.responses + [Response(itemId, chosenIndex, correct, now)])])
        && cards == old(cards)[card.id := card.(stats := card.stats.(streak := Some(NextStreak(card.stats.streak, correct))))]
      ensures old(Valid()) ==> Valid()
    {
      var run := runs.evaluation[runId];
      var item := FindItem(run.items, itemId).value;
      correct := chosenIndex == item.answerIndex;
      var card := cards[item.cardId];
      var stats := card.stats.(streak := Some(NextStreak(card.stats.streak, correct)));
      var run2 := run.(responses := run.responses + [Response(itemId, chosenIndex, correct, now)]);
      if Valid() {
        RestatInv(Data(), jobs, jobOrder, runs, nextId, item.cardId, stats);
        EvaluationUpdateInv(Restat(Data(), item.cardId, stats), jobs, jobOrder, runs, nextId, runId, run2);
      }
      runs := runs.(evaluation := runs.evaluation[runId := run2]);
      cards := cards[card.id := card.(stats := stats)];
    }

    /** `finishEvaluation(runId)`: the run is stamped complete. The run must exist. */
    method FinishEvaluation(runId: Id, now: int)
      requires runId in runs.evaluation
      modifies this`runs
      ensures runs == old(runs).(evaluation := old(runs).evaluation[runId := old(runs).evaluation[runId].(completedAt := Some(now))])
      ensures old(Valid()) ==> Valid()
    {
      var run := runs.evaluation[runId];
      if Valid() {
        EvaluationUpdateInv(Data(), jobs, jobOrder, runs, nextId, runId, run.(completedAt := Some(now)));
      }
      runs := runs.(evaluation := runs.evaluation[runId := run.(completedAt := Some(now))]);
    }

    // ---- ingestion -----------------------------------------------------------------

    /** Writes `job` under its id; the store stays valid when that id was drawn already. */
    method PutJob(job: Job)
      modifies this`jobs, this`jobOrder
      ensures jobs == old(jobs)[job.id := job]
      ensures jobOrder == Upsert(old(jobOrder), job.id)
      ensures old(Valid()) && job.id < nextId ==> Valid()
    {
      if Valid() && job.id < nextId {
        PutJobInv(Data(), jobs, jobOrder, runs, nextId, job);
      }
      jobs := jobs[job.id := job];
      jobOrder := Upsert(jobOrder, job.id);
    }

    /** `enqueueJob(lectureId)`: a queued job at progress 0. */
    method EnqueueJob(lectureId: Id) returns (jobId: Id)
      modifies this`jobs, this`jobOrder, this`nextId
      ensures jobId == old(nextId) && nextId == jobId + 1
      ensures jobs == old(jobs)[jobId := Job(jobId, lectureId, Queued, 0)]
      ensures jobOrder == Upsert(old(jobOrder), jobId)
      ensures old(Valid()) ==> Valid()
    {
      jobId := NewId();
      PutJob(Job(jobId, lectureId, Queued, 0));
    }

    /** `{...st.jobs[jobId], stage, progress}`. */
    method SetStage(jobId: Id, stage: Stage, progress: nat)
      requires jobId in jobs
      modifies this`jobs
      ensures jobs == old(jobs)[jobId := old(jobs)[jobId].(stage := stage, progress := progress)]
      ensures old(Valid()) ==> Valid()
    {
      if Valid() {
        StageInv(Data(), jobs, jobOrder, runs, nextId, jobId, stage, progress);
      }
      jobs := jobs[jobId := jobs[jobId].(stage := stage, progress := progress)];
    }

    /** Stage 1 of an ingestion: the lecture's first queued job, or a new one, goes to extracting. */
    method BeginJob(lectureId: Id) returns (jobId: Id)
      modifies this`jobs, this`jobOrder, this`nextId
      ensures jobId == JobIdFor(old(jobOrder), old(jobs), lectureId, old(nextId))
      ensures nextId == CounterAfterJob(old(jobOrder), old(jobs), lectureId, old(nextId))
      ensures jobs == old(jobs)[jobId := Job(jobId, lectureId, Extracting, 2)]
      ensures jobOrder == Upsert(old(jobOrder), jobId)
      ensures old(Valid()) ==> Valid()
    {
      if Valid() {
        FirstQueuedListed(jobs, jobOrder, lectureId);
      }
      var queued := FirstQueued(jobOrder, jobs, lectureId);
      if queued.Some? {
        jobId := queued.value;
      } else {
        jobId := NewId();
      }
      PutJob(Job(jobId, lectureId, Extracting, 2));
    }

    /** The source id and the chunk ids, drawn in turn; `guarded` skips chunking an empty text. */
    method DrawSource(kind: SourceKind, name: string, text: string, guarded: bool) returns (src: SourceDoc)
      modifies this`nextId
      ensures src == DrawnSource(old(nextId), kind, name, text, guarded)
      ensures nextId == After(src)
      ensures old(Valid()) ==> Valid()
    {
      var sourceId := nextId;
      var chunks := [];
      if !guarded || text != [] {
        chunks := Chunking.ChunkText(text, sourceId + 1);
      }
      src := SourceDoc(sourceId, kind, name, text, chunks);
      if Valid() {
        BumpInv(Data(), jobs, jobOrder, runs, nextId, After(src));
      }
      nextId := After(src);
    }

    /** Stage 2 of an ingestion: the lecture gets the source document. */
    method AttachSource(lectureId: Id, src: SourceDoc)
      requires lectureId in lectures
      modifies this`lectures
      ensures Data() == AddSource(old(Data()), lectureId, src)
      ensures old(Valid()) ==> Valid()
    {
      if Valid() {
        AddSourceInv(Data(), jobs, jobOrder, runs, nextId, lectureId, src);
      }
      var l := lectures[lectureId];
      lectures := lectures[lectureId := l.(sources := l.sources + [src])];
    }

    /**
     * Stage 3 of an ingestion: the generated rows merged into the lecture's cards, new
     * cards taking ids from the counter.
     */
    method MergeGenerated(lectureId: Id, rows: seq<Row>)
      requires CardsPresent(Data(), lectureId)
      modifies this`lectures, this`cards, this`nextId
      ensures Data() == MergeInto(old(Data()), lectureId, rows, old(nextId))
      ensures nextId == old(nextId) + |NewRows(old(Data()), lectureId, rows)|
      ensures old(Valid()) ==> Valid()
    {
      if Valid() {
        MergeInv(Data(), jobs, jobOrder, runs, nextId, lectureId, rows);
      }
      var h, drawn := MergeGraph(Data(), lectureId, rows, nextId);
      lectures, cards := h.lectures, h.cards;
      nextId := nextId + drawn;
    }

    /**
     * Stages 3 and 4 of an ingestion, once the source is recorded in `g1`, the store's maps
     * (`base` is the counter): the job goes to generating; then the rows are merged and the
     * job is done, or, with no rows or a listed card missing, the job stops as `Generated`
     * says and nothing else changes.
     */
    method Generate(jobId: Id, lectureId: Id, generated: Option<seq<Row>>, caught: bool, ghost g1: Graph, ghost base: nat)
      returns (stages: seq<(Stage, nat)>)
      requires jobId in jobs && lectureId in lectures && g1 == Data() && base == nextId
      modifies this`lectures, this`cards, this`jobs, this`nextId
      ensures var o := Generated(g1, lectureId, generated, caught, base);
        Data() == o.data && nextId == o.next && stages == o.stages
      ensures stages != [] && jobs == old(jobs)[jobId := Reached(old(jobs)[jobId], stages)]
      ensures old(Valid()) ==> Valid()
    {
      SetStage(jobId, Generating, 5);
      if generated.None? || !CardsPresent(Data(), lectureId) {
        stages := [(Extracting, 2), (Generating, 5)];
        if caught {
          SetStage(jobId, Error, 10);
          stages := stages + [(Error, 10)];
        }
        return;
      }
      MergeGenerated(lectureId, generated.value);
      SetStage(jobId, Finalizing, 9);
      SetStage(jobId, Done, 10);
      stages := [(Extracting, 2), (Generating, 5), (Finalizing, 9), (Done, 10)];
    }

    /** Stages 2 to 4 of an ingestion, the store's maps being `g` and its counter `base`: the source is recorded, then the rows are merged. */
    method Record(jobId: Id, lectureId: Id, src: SourceDoc, generated: Option<seq<Row>>, caught: bool, ghost g: Graph, ghost base: nat)
      returns (stages: seq<(Stage, nat)>)
      requires jobId in jobs && lectureId in lectures && g == Data() && base == nextId
      modifies this`lectures, this`cards, this`jobs, this`nextId
      ensures lectureId in g.lectures
      ensures var o := Generated(AddSource(g, lectureId, src), lectureId, generated, caught, base);
        Data() == o.data && nextId == o.next && stages == o.stages
      ensures stages != [] && jobs == old(jobs)[jobId := Reached(old(jobs)[jobId], stages)]
      ensures old(Valid()) ==> Valid()
    {
      AttachSource(lectureId, src);
      stages := Generate(jobId, lectureId, generated, caught, AddSource(g, lectureId, src), base);
    }

    /**
     * An ingestion after its job is extracting, the store's maps being `g` and its counter
     * `n`: the source and chunk ids are drawn (an empty text has no chunks), and with the
     * lecture present the source is recorded and the backend's rows merged.
     */
    method Process(jobId: Id, lectureId: Id, name: string, text: string, kind: SourceKind, generated: Option<seq<Row>>,
                   ghost g: Graph, ghost n: nat)
      returns (stages: seq<(Stage, nat)>)
      requires jobId in jobs && g == Data() && n == nextId
      modifies this`lectures, this`cards, this`jobs, this`nextId
      ensures var o := IngestByBackend(g, lectureId, n, kind, name, text, generated);
        Data() == o.data && nextId == o.next && stages == o.stages
      ensures lectureId !in old(lectures) ==> jobs == old(jobs)
      ensures lectureId in old(lectures) ==> stages != [] && jobs == old(jobs)[jobId := Reached(old(jobs)[jobId], stages)]
      ensures old(Valid()) ==> Valid()
    {
      var src := DrawSource(kind, name, text, true);
      if lectureId !in lectures {
        ByBackendMissing(g, lectureId, n, kind, name, text, generated);
        return [(Extracting, 2)];
      }
      ByBackendPresent(g, lectureId, n, kind, name, text, generated);
      stages := Record(jobId, lectureId, src, generated, true, g, nextId);
    }

    /**
     * `Record` of a source the in-browser pipeline drew (every text is chunked), with the rows
     * the in-browser extractor makes from the joined chunk texts.
     */
    method RecordLocally(jobId: Id, lectureId: Id, src: SourceDoc, ghost g: Graph, ghost base: nat)
      returns (stages: seq<(Stage, nat)>)
      requires jobId in jobs && lectureId in lectures && g == Data() && base == nextId
      requires src == DrawnSource(src.id, TextSource, src.name, src.text, false)
      modifies this`lectures, this`cards, this`jobs, this`nextId
      ensures var o := Generated(AddSource(g, lectureId, src), lectureId, LocalRows(src.text), false, base);
        Data() == o.data && nextId == o.next && stages == o.stages
      ensures stages != [] && jobs == old(jobs)[jobId := Reached(old(jobs)[jobId], stages)]
      ensures old(Valid()) ==> Valid()
    {
      var joined := Chunking.JoinChunkTexts(src.chunks, src.text, src.id + 1);
      var generated := Extractor.GenerateCardsLocally(joined);
      stages := Record(jobId, lectureId, src, Some(generated), false, g, base);
    }

    /**
     * The in-browser pipeline after its job is extracting, the store's maps being `g` and its
     * counter `n`: as `Process`, but every text is chunked and the in-browser extractor makes
     * the rows.
     */
    method ProcessLocally(jobId: Id, lectureId: Id, name: string, text: string, ghost g: Graph, ghost n: nat)
      returns (stages: seq<(Stage, nat)>)
      requires jobId in jobs && g == Data() && n == nextId
      modifies this`lectures, this`cards, this`jobs, this`nextId
      ensures var o := IngestInBrowser(g, lectureId, n, name, text);
        Data() == o.data && nextId == o.next && stages == o.stages
      ensures lectureId !in old(lectures) ==> jobs == old(jobs)
      ensures lectureId in old(lectures) ==> stages != [] && jobs == old(jobs)[jobId := Reached(old(jobs)[jobId], stages)]
      ensures old(Valid()) ==> Valid()
    {
      var src := DrawSource(TextSource, name, text, false);
      if lectureId !in lectures {
        InBrowserMissing(g, lectureId, n, name, text);
        return [(Extracting, 2)];
      }
      InBrowserPresent(g, lectureId, n, name, text);
      stages := RecordLocally(jobId, lectureId, src, g, nextId);
    }

    /**
     * `ingestText(lectureId, name, text, file)`: the job goes to extracting; the source
     * document and its chunks are appended to the lecture; the backend's rows (`generated`,
     * `None` when the call fails) are merged and the job finishes. With the lecture missing
     * the store throws at stage 2 and the job stays extracting; with the backend failing or a
     * listed card missing the job ends in error and the source stays recorded.
     */
    method IngestText(lectureId: Id, name: string, text: string, isFile: bool, generated: Option<seq<Row>>)
      returns (jobId: Id, trace: seq<Job>)
      modifies this`lectures, this`cards, this`jobs, this`jobOrder, this`nextId
      ensures jobId == JobIdFor(old(jobOrder), old(jobs), lectureId, old(nextId))
      ensures trace != [] && jobs == old(jobs)[jobId := trace[|trace| - 1]]
      ensures jobOrder == Upsert(old(jobOrder), jobId)
      ensures var o := IngestByBackend(old(Data()), lectureId, CounterAfterJob(old(jobOrder), old(jobs), lectureId, old(nextId)),
                                       KindOf(isFile), name, text, generated);
        Data() == o.data && nextId == o.next && trace == Stages(jobId, lectureId, o.stages)
      ensures old(Valid()) ==> Valid()
    {
      jobId := BeginJob(lectureId);
      var stages := Process(jobId, lectureId, name, text, KindOf(isFile), generated, old(Data()), CounterAfterJob(old(jobOrder), old(jobs), lectureId, old(nextId)));
      trace := Stages(jobId, lectureId, stages);
      if lectureId in old(lectures) {
        ghost var begun := Job(jobId, lectureId, Extracting, 2);
        Overwrite(old(jobs), jobId, begun, Reached(begun, stages));
      }
    }

    /**
     * `ingestText(lectureId, name, text)` of frontend/src/App.jsx: the same stages as
     * `IngestText`, but every text is chunked, the in-browser extractor
     * (`Extractor.LocalCards`) makes the rows from the chunks, and a missing lecture or listed
     * card is an uncaught error that stops the job where it stands.
     */
    method IngestTextLocally(lectureId: Id, name: string, text: string)
      returns (jobId: Id, trace: seq<Job>)
      modifies this`lectures, this`cards, this`jobs, this`jobOrder, this`nextId
      ensures jobId == JobIdFor(old(jobOrder), old(jobs), lectureId, old(nextId))
      ensures trace != [] && jobs == old(jobs)[jobId := trace[|trace| - 1]]
      ensures jobOrder == Upsert(old(jobOrder), jobId)
      ensures var o := IngestInBrowser(old(Data()), lectureId, CounterAfterJob(old(jobOrder), old(jobs), lectureId, old(nextId)),
                                       name, text);
        Data() == o.data && nextId == o.next && trace == Stages(jobId, lectureId, o.stages)
      ensures old(Valid()) ==> Valid()
    {
      jobId := BeginJob(lectureId);
      var stages := ProcessLocally(jobId, lectureId, name, text, old(Data()), CounterAfterJob(old(jobOrder), old(jobs), lectureId, old(nextId)));
      trace := Stages(jobId, lectureId, stages);
      if lectureId in old(lectures) {
        ghost var begun := Job(jobId, lectureId, Extracting, 2);
        Overwrite(old(jobs), jobId, begun, Reached(begun, stages));
      }
    }
  }
}
