/**
 * The records of the store of frontend/src/store.js besides the linked graph of module
 * Domain (jobs, runs, UI selection), and the pure steps its actions take: the job lookup,
 * the stats merge, the streak update and the item lookup.
 */
module Records {
  import opened Wrappers
  import opened Keyed
  import opened Domain
  import opened Merge
  import Chunking
  import Extractor
  import Evaluation
  import Text

  // ---- records -----------------------------------------------------------------

  datatype Stage = Queued | Extracting | Generating | Finalizing | Done | Error

  /** `progress` is counted in tenths: the store's 0.2 is 2 and its 1 is 10. */
  datatype Job = Job(id: Id, lectureId: Id, stage: Stage, progress: nat)

  /** A study event as the learning view logs it: `{t, type, cardId}`. */
  datatype LearningEvent = LearningEvent(t: int, kind: string, cardId: Id)

  datatype LearningRun = LearningRun(
    id: Id, setId: Id, scope: Scope, createdAt: int, order: seq<Id>, cursor: int, events: seq<LearningEvent>)

  datatype Response = Response(itemId: Id, chosenIndex: int, correct: bool, t: int)

  /** `completedAt` is absent until `finishEvaluation`. */
  datatype EvaluationRun = EvaluationRun(
    id: Id, setId: Id, scope: Scope, createdAt: int, items: seq<Evaluation.Item>,
    responses: seq<Response>, completedAt: Option<int>)

  datatype Runs = Runs(learning: map<Id, LearningRun>, evaluation: map<Id, EvaluationRun>)

  /** `currentRunId` is absent until a run starts. */
  datatype Ui = Ui(currentSetId: Option<Id>, tab: string, currentRunId: Option<Id>)

  /** The fields of a `bumpCardStats` change object; an absent field keeps its value. */
  datatype StatsPatch = StatsPatch(views: Option<int>, flips: Option<int>, lastSeen: Option<int>, streak: Option<int>)

  /** `exportJSON`'s document: jobs are never exported. */
  datatype Exported = Exported(version: nat, data: Snapshot, jobs: map<Id, Job>, runs: Runs)

  // ---- pure helpers ------------------------------------------------------------

  /** `{...stats, ...change}`. */
  function Patch(stats: Stats, change: StatsPatch): (r: Stats)
    ensures change.views.Some? ==> r.views == change.views.value
    ensures change.views.None? ==> r.views == stats.views
    ensures change.flips.Some? ==> r.flips == change.flips.value
    ensures change.flips.None? ==> r.flips == stats.flips
    ensures change.lastSeen.Some? ==> r.lastSeen == change.lastSeen
    ensures change.lastSeen.None? ==> r.lastSeen == stats.lastSeen
    ensures change.streak.Some? ==> r.streak == change.streak
    ensures change.streak.None? ==> r.streak == stats.streak
  {
    Stats(
      change.views.GetOr(stats.views),
      change.flips.GetOr(stats.flips),
      if change.lastSeen.Some? then change.lastSeen else stats.lastSeen,
      if change.streak.Some? then change.streak else stats.streak)
  }

  /**
   * `answerMCQ`'s new streak, `max(0, s + (correct ? 1 : -s))` with an absent streak read
   * as 0: a right answer extends a run of right answers, a wrong one resets it.
   */
  function NextStreak(streak: Option<int>, correct: bool): (r: int)
    ensures r >= 0
    ensures !correct ==> r == 0
    ensures correct && streak.GetOr(0) >= 0 ==> r == streak.GetOr(0) + 1
    ensures correct && streak.GetOr(0) < 0 ==> r == Max(0, streak.GetOr(0) + 1)
  {
    var s := streak.GetOr(0);
    Max(0, s + (if correct then 1 else -s))
  }

  /** The streak stored after answering `answers` in turn, from the stored value `start`. */
  function StreakAfter(start: Option<int>, answers: seq<bool>): Option<int> {
    if answers == [] then start
    else Some(NextStreak(StreakAfter(start, answers[..|answers| - 1]), answers[|answers| - 1]))
  }

  /** The number of right answers at the end of `answers`. */
  function TrailingCorrect(answers: seq<bool>): (n: nat)
    ensures n <= |answers|
    ensures forall i :: |answers| - n <= i < |answers| ==> answers[i]
    ensures n < |answers| ==> !answers[|answers| - 1 - n]
  {
    if answers == [] || !answers[|answers| - 1] then 0 else TrailingCorrect(answers[..|answers| - 1]) + 1
  }

  /**
   * After at least one answer the streak counts the right answers since the last wrong one,
   * or, with no wrong answer yet, those added to the stored streak.
   */
  lemma {:induction false} StreakCountsRun(start: Option<int>, answers: seq<bool>)
    requires start.GetOr(0) >= 0 && answers != []
    ensures StreakAfter(start, answers) == Some(if false in answers then TrailingCorrect(answers) else start.GetOr(0) + |answers|)
  {
    var pre := answers[..|answers| - 1];
    var last := answers[|answers| - 1];
    assert answers == pre + [last];
    if pre == [] {
    } else {
      StreakCountsRun(start, pre);
      assert false in answers <==> false in pre || !last;
    }
  }

  /** The order `Object.values(jobs)` visits the jobs in: a new key goes last, an old one stays put. */
  function Upsert(order: seq<Id>, id: Id): (r: seq<Id>)
    ensures forall x :: x in r <==> x in order || x == id
    ensures order <= r && |r| <= |order| + 1
  {
    if id in order then order else order + [id]
  }

  lemma UpsertDistinct(order: seq<Id>, id: Id)
    requires Distinct(order)
    ensures Distinct(Upsert(order, id))
  {
  }

  /**
   * `Object.values(jobs).find((j) => j.lectureId === lectureId && j.stage === "queued")?.id`:
   * the id of the first queued job of the lecture, in insertion order.
   */
  function FirstQueued(order: seq<Id>, jobs: map<Id, Job>, lectureId: Id): (r: Option<Id>)
    ensures r.Some? <==> exists i :: 0 <= i < |order| && Queues(jobs, order[i], lectureId)
    ensures r.Some? ==> exists i :: (0 <= i < |order| && Queues(jobs, order[i], lectureId) && r.value == jobs[order[i]].id
      && forall k :: 0 <= k < i ==> !Queues(jobs, order[k], lectureId))
  {
    if order == [] then None
    else if Queues(jobs, order[0], lectureId) then Some(jobs[order[0]].id)
    else
      var r := FirstQueued(order[1..], jobs, lectureId);
      assert forall i :: 0 < i < |order| ==> order[i] == order[1..][i - 1];
      if r.Some? then
        var i :| (0 <= i < |order[1..]| && Queues(jobs, order[1..][i], lectureId) && r.value == jobs[order[1..][i]].id
          && forall k :: 0 <= k < i ==> !Queues(jobs, order[1..][k], lectureId));
        assert Queues(jobs, order[i + 1], lectureId) && forall k :: 0 <= k < i + 1 ==> !Queues(jobs, order[k], lectureId);
        r
      else r
  }

  predicate Queues(jobs: map<Id, Job>, k: Id, lectureId: Id) {
    k in jobs && jobs[k].lectureId == lectureId && jobs[k].stage == Queued
  }

  /** The id of the ingestion's job: the lecture's first queued job, or the id drawn next. */
  function JobIdFor(order: seq<Id>, jobs: map<Id, Job>, lectureId: Id, nextId: Id): Id {
    FirstQueued(order, jobs, lectureId).GetOr(nextId)
  }

  /** The counter once the job id is settled: a new job draws one id, a queued job none. */
  function CounterAfterJob(order: seq<Id>, jobs: map<Id, Job>, lectureId: Id, nextId: nat): nat {
    if FirstQueued(order, jobs, lectureId).Some? then nextId else nextId + 1
  }

  /** The run's item with id `itemId`, the first if several: `run.items.find((i) => i.id === itemId)`. */
  function FindItem(items: seq<Evaluation.Item>, itemId: Id): (r: Option<Evaluation.Item>)
    ensures r.Some? <==> exists i :: 0 <= i < |items| && items[i].id == itemId
    ensures r.Some? ==> r.value in items && r.value.id == itemId
  {
    if items == [] then None
    else if items[0].id == itemId then Some(items[0])
    else
      var r := FindItem(items[1..], itemId);
      assert forall i :: 0 < i < |items| ==> items[i] == items[1..][i - 1];
      r
  }

  /** The lecture exists and every card it lists is stored: the merge looks each one up. */
  predicate CardsPresent(g: Graph, lectureId: Id) {
    lectureId in g.lectures && forall c :: c in g.lectures[lectureId].cardIds ==> c in g.cards
  }

  /**
   * The chunks an ingestion draws, ids from `firstId`: `text ? chunkText(text) : []` when
   * `guarded`, `chunkText(text)` otherwise.
   */
  function DrawnChunks(text: string, guarded: bool, firstId: nat): seq<Chunking.TextChunk> {
    if guarded && text == [] then [] else Chunking.ChunkRecords(text, firstId)
  }

  /** The job record at each stage an ingestion reaches. */
  function Stages(jobId: Id, lectureId: Id, stages: seq<(Stage, nat)>): (r: seq<Job>)
    ensures |r| == |stages|
    ensures forall i :: 0 <= i < |r| ==> r[i] == Job(jobId, lectureId, stages[i].0, stages[i].1)
  {
    seq(|stages|, i requires 0 <= i < |stages| => Job(jobId, lectureId, stages[i].0, stages[i].1))
  }

  /** Where an ingestion leaves the store: the linked maps, the next free id and the stages the job went through. */
  datatype Outcome = Outcome(data: Graph, next: nat, stages: seq<(Stage, nat)>)

  /** The job once it has gone through `stages`: at the last of them. */
  function Reached(job: Job, stages: seq<(Stage, nat)>): Job
    requires stages != []
  {
    job.(stage := stages[|stages| - 1].0, progress := stages[|stages| - 1].1)
  }

  /**
   * Stages 3 and 4 of `ingestText`, the source being recorded in `g1`: with rows
   * (`generated` is `None` when the backend fails) and every listed card present, the rows
   * are merged with new ids from `base` and the job is done; otherwise nothing changes and
   * the job ends in error when the failure is `caught`, or stays generating.
   */
  function Generated(g1: Graph, lectureId: Id, generated: Option<seq<Row>>, caught: bool, base: nat): Outcome
    requires lectureId in g1.lectures
  {
    if generated.Some? && CardsPresent(g1, lectureId) then
      Outcome(MergeInto(g1, lectureId, generated.value, base), base + |NewRows(g1, lectureId, generated.value)|,
              [(Extracting, 2), (Generating, 5), (Finalizing, 9), (Done, 10)])
    else Outcome(g1, base, [(Extracting, 2), (Generating, 5)] + (if caught then [(Error, 10)] else []))
  }

  /**
   * `ingestText` once the job id, the source document and its chunks are drawn, `base` being
   * the first id after them: a missing lecture stops it at stage 2 (an uncaught error) with
   * nothing recorded; otherwise the source is appended and `Generated` goes on.
   */
  function Ingest(g: Graph, lectureId: Id, src: SourceDoc, generated: Option<seq<Row>>, caught: bool, base: nat): Outcome {
    if lectureId !in g.lectures then Outcome(g, base, [(Extracting, 2)])
    else Generated(AddSource(g, lectureId, src), lectureId, generated, caught, base)
  }

  /**
   * The source document an ingestion draws at `sourceId`, its chunks numbered after it
   * (none for an empty text when `guarded`).
   */
  function DrawnSource(sourceId: nat, kind: SourceKind, name: string, text: string, guarded: bool): SourceDoc {
    SourceDoc(sourceId, kind, name, text, DrawnChunks(text, guarded, sourceId + 1))
  }

  /** The first id left free once a source and its chunks have their ids. */
  function After(src: SourceDoc): nat {
    src.id + 1 + |src.chunks|
  }

  /** `Ingest` of text sent to the backend: an empty text is not chunked. */
  function IngestByBackend(g: Graph, lectureId: Id, sourceId: nat, kind: SourceKind, name: string, text: string,
                           generated: Option<seq<Row>>): Outcome {
    var src := DrawnSource(sourceId, kind, name, text, true);
    Ingest(g, lectureId, src, generated, true, After(src))
  }

  /** The rows the in-browser extractor makes from the joined chunk texts of `text`. */
  function LocalRows(text: string): Option<seq<Row>> {
    Some(Extractor.LocalCards(Chunking.ChunkedText(text)))
  }

  /** `Ingest` of text chunked in the browser, the in-browser extractor making the rows. */
  function IngestInBrowser(g: Graph, lectureId: Id, sourceId: nat, name: string, text: string): Outcome {
    var src := DrawnSource(sourceId, TextSource, name, text, false);
    Ingest(g, lectureId, src, LocalRows(text), false, After(src))
  }

  /** With the lecture missing, the backend pipeline only draws its ids. */
  lemma ByBackendMissing(g: Graph, lectureId: Id, n: nat, kind: SourceKind, name: string, text: string,
                         generated: Option<seq<Row>>)
    requires lectureId !in g.lectures
    ensures IngestByBackend(g, lectureId, n, kind, name, text, generated) ==
      Outcome(g, After(DrawnSource(n, kind, name, text, true)), [(Extracting, 2)])
  {
  }

  /** With the lecture present, the backend pipeline records the source and goes on as `Generated` says. */
  lemma ByBackendPresent(g: Graph, lectureId: Id, n: nat, kind: SourceKind, name: string, text: string,
                         generated: Option<seq<Row>>)
    requires lectureId in g.lectures
    ensures IngestByBackend(g, lectureId, n, kind, name, text, generated) ==
      Generated(AddSource(g, lectureId, DrawnSource(n, kind, name, text, true)), lectureId, generated, true,
                After(DrawnSource(n, kind, name, text, true)))
  {
  }

  /** With the lecture missing, the in-browser pipeline only draws its ids. */
  lemma InBrowserMissing(g: Graph, lectureId: Id, n: nat, name: string, text: string)
    requires lectureId !in g.lectures
    ensures IngestInBrowser(g, lectureId, n, name, text) ==
      Outcome(g, After(DrawnSource(n, TextSource, name, text, false)), [(Extracting, 2)])
  {
  }

  /** With the lecture present, the in-browser pipeline records the source and merges the extracted rows. */
  lemma InBrowserPresent(g: Graph, lectureId: Id, n: nat, name: string, text: string)
    requires lectureId in g.lectures
    ensures IngestInBrowser(g, lectureId, n, name, text) ==
      Generated(AddSource(g, lectureId, DrawnSource(n, TextSource, name, text, false)), lectureId, LocalRows(text), false,
                After(DrawnSource(n, TextSource, name, text, false)))
  {
  }

  /**
   * The stages of an ingestion: it starts extracting at 20%; progress only rises, to at
   * most 100%; it ends done exactly when the lecture exists, rows came back and every listed
   * card is stored, and in the error stage exactly when the lecture exists, that failed and
   * the failure is caught. When it is not done, nothing but the source has been recorded.
   */
  lemma IngestStages(g: Graph, lectureId: Id, src: SourceDoc, generated: Option<seq<Row>>, caught: bool, base: nat)
    ensures var o := Ingest(g, lectureId, src, generated, caught, base);
      && o.stages != [] && o.stages[0] == (Extracting, 2)
      && (forall i, j :: 0 <= i < j < |o.stages| ==> o.stages[i].1 < o.stages[j].1)
      && (forall i :: 0 <= i < |o.stages| ==> o.stages[i].1 <= 10)
      && (o.stages[|o.stages| - 1].0 == Done <==> lectureId in g.lectures && generated.Some? && CardsPresent(g, lectureId))
      && (o.stages[|o.stages| - 1].0 == Error <==>
            lectureId in g.lectures && !(generated.Some? && CardsPresent(g, lectureId)) && caught)
      && (o.stages[|o.stages| - 1].0 != Done ==>
            o.next == base && o.data == if lectureId in g.lectures then AddSource(g, lectureId, src) else g)
  {
    if lectureId in g.lectures {
      AddSourceSpec(g, lectureId, src);
      assert CardsPresent(AddSource(g, lectureId, src), lectureId) == CardsPresent(g, lectureId);
    }
  }

  /**
   * Whatever the outcome, the sets and the other lectures are untouched, no lecture appears
   * or disappears, and an existing lecture gets the source appended to its sources.
   */
  lemma IngestRecordsSource(g: Graph, lectureId: Id, src: SourceDoc, generated: Option<seq<Row>>, caught: bool, base: nat)
    ensures var o := Ingest(g, lectureId, src, generated, caught, base);
      && o.data.sets == g.sets
      && o.data.lectures.Keys == g.lectures.Keys
      && (forall l :: l in g.lectures && l != lectureId ==> o.data.lectures[l] == g.lectures[l])
      && (lectureId in g.lectures ==> o.data.lectures[lectureId].sources == g.lectures[lectureId].sources + [src])
      && (lectureId !in g.lectures ==> o.data == g)
  {
    if lectureId in g.lectures {
      AddSourceSpec(g, lectureId, src);
    }
  }

  /**
   * The in-browser pipeline cannot fail once its rows are made: it never ends in the error
   * stage, and it is done whenever the lecture exists with all its cards stored.
   */
  lemma InBrowserNeverErrs(g: Graph, lectureId: Id, n: nat, name: string, text: string)
    ensures var o := IngestInBrowser(g, lectureId, n, name, text);
      && o.stages != []
      && o.stages[|o.stages| - 1].0 != Error
      && (CardsPresent(g, lectureId) ==> o.stages[|o.stages| - 1].0 == Done)
  {
    var src := DrawnSource(n, TextSource, name, text, false);
    IngestStages(g, lectureId, src, LocalRows(text), false, After(src));
  }

  /** The backend pipeline ends in the error stage exactly when the lecture exists and the backend or the merge lookup failed. */
  lemma ByBackendErrs(g: Graph, lectureId: Id, n: nat, kind: SourceKind, name: string, text: string,
                      generated: Option<seq<Row>>)
    ensures var o := IngestByBackend(g, lectureId, n, kind, name, text, generated);
      && o.stages != []
      && (o.stages[|o.stages| - 1].0 == Error <==>
            lectureId in g.lectures && !(generated.Some? && CardsPresent(g, lectureId)))
  {
    var src := DrawnSource(n, kind, name, text, true);
    IngestStages(g, lectureId, src, generated, true, After(src));
  }

  /** `ui: { currentSetId: null, tab: "lectures" }`. */
  const InitialUi := Ui(None, "lectures", None)

  /** Importing a store's own export gives back the same maps. */
  lemma ImportOwnExport(g: Graph)
    ensures Import(g, Snapshot(Some(g.sets), Some(g.lectures), Some(g.cards))) == g
  {
  }

  /** A file without maps adds nothing. */
  lemma ImportNothing(g: Graph)
    ensures Import(g, Snapshot(None, None, None)) == g
  {
  }
}
