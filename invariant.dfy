/**
 * The store invariant of module Store, stated on values: references are two-sided, every
 * id in use lies below the id counter, and the job list names each job once. One lemma per
 * store action shows the action keeps it.
 */
module Invariant {
  import opened Wrappers
  import opened Keyed
  import opened Domain
  import opened Links
  import opened Merge
  import opened Records

  /** Every key of the graph lies below `n`. */
  ghost predicate IdsBelow(g: Graph, n: nat) {
    && (forall k :: k in g.sets ==> k < n)
    && (forall k :: k in g.lectures ==> k < n)
    && (forall k :: k in g.cards ==> k < n)
  }

  /** Every run id lies below `n`. */
  ghost predicate RunIdsBelow(runs: Runs, n: nat) {
    (forall k :: k in runs.learning ==> k < n) && (forall k :: k in runs.evaluation ==> k < n)
  }

  /** No id the counter hands out from `n` on is in use. */
  ghost predicate FreshIds(g: Graph, jobs: map<Id, Job>, runs: Runs, n: nat) {
    IdsBelow(g, n) && (forall k :: k in jobs ==> k < n) && RunIdsBelow(runs, n)
  }

  /** `order` lists each job once, and every job sits under its own id. */
  ghost predicate Listed(jobs: map<Id, Job>, order: seq<Id>) {
    && (forall k :: k in jobs <==> k in order)
    && Distinct(order)
    && (forall k :: k in jobs ==> jobs[k].id == k)
  }

  /** The store invariant. */
  ghost predicate Inv(g: Graph, jobs: map<Id, Job>, order: seq<Id>, runs: Runs, n: nat) {
    Linked(g) && FreshIds(g, jobs, runs, n) && Listed(jobs, order)
  }

  lemma EmptyInv()
    ensures Inv(Graph(map[], map[], map[]), map[], [], Runs(map[], map[]), 0)
  {
  }

  /** Drawing ids keeps every id in use below the counter. */
  lemma BumpInv(g: Graph, jobs: map<Id, Job>, order: seq<Id>, runs: Runs, n: nat, m: nat)
    requires Inv(g, jobs, order, runs, n) && n <= m
    ensures Inv(g, jobs, order, runs, m)
  {
  }

  // ---- sets, lectures, cards -----------------------------------------------------

  lemma CreateSetInv(g: Graph, jobs: map<Id, Job>, order: seq<Id>, runs: Runs, n: nat, title: string, now: int)
    requires Inv(g, jobs, order, runs, n)
    ensures Inv(Domain.CreateSet(g, n, title, now), jobs, order, runs, n + 1)
  {
    CreateSetLinked(g, n, title, now);
  }

  lemma AddLectureInv(g: Graph, jobs: map<Id, Job>, order: seq<Id>, runs: Runs, n: nat, setId: Id, title: string)
    requires Inv(g, jobs, order, runs, n) && setId in g.sets
    ensures Inv(Domain.AddLecture(g, n, setId, title), jobs, order, runs, n + 1)
  {
    AddLectureLinked(g, n, setId, title);
  }

  lemma DeleteSetInv(g: Graph, jobs: map<Id, Job>, order: seq<Id>, runs: Runs, n: nat, setId: Id)
    requires Inv(g, jobs, order, runs, n)
    ensures Inv(Domain.DeleteSet(g, setId), jobs, order, runs, n)
  {
    DeleteSetLinked(g, setId);
  }

  lemma DeleteLectureInv(g: Graph, jobs: map<Id, Job>, order: seq<Id>, runs: Runs, n: nat, lectureId: Id)
    requires Inv(g, jobs, order, runs, n)
    ensures lectureId in g.lectures ==> g.lectures[lectureId].setId in g.sets
    ensures Inv(Domain.DeleteLecture(g, lectureId), jobs, order, runs, n)
  {
    DeleteLectureLinked(g, lectureId);
    DeleteLectureFresh(g, jobs, runs, n, lectureId);
  }

  lemma DeleteLectureFresh(g: Graph, jobs: map<Id, Job>, runs: Runs, n: nat, lectureId: Id)
    requires FreshIds(g, jobs, runs, n) && (lectureId in g.lectures ==> g.lectures[lectureId].setId in g.sets)
    ensures FreshIds(Domain.DeleteLecture(g, lectureId), jobs, runs, n)
  {
  }

  lemma AddCardInv(g: Graph, jobs: map<Id, Job>, order: seq<Id>, runs: Runs, n: nat,
                   lectureId: Id, term: string, explanation: string)
    requires Inv(g, jobs, order, runs, n) && lectureId in g.lectures
    ensures Inv(Domain.AddCard(g, n, lectureId, term, explanation), jobs, order, runs, n + 1)
  {
    AddCardLinked(g, n, lectureId, term, explanation);
    AddCardFresh(g, jobs, runs, n, lectureId, term, explanation);
  }

  lemma AddCardFresh(g: Graph, jobs: map<Id, Job>, runs: Runs, n: nat, lectureId: Id, term: string, explanation: string)
    requires FreshIds(g, jobs, runs, n) && lectureId in g.lectures
    ensures FreshIds(Domain.AddCard(g, n, lectureId, term, explanation), jobs, runs, n + 1)
  {
  }

  lemma DeleteCardInv(g: Graph, jobs: map<Id, Job>, order: seq<Id>, runs: Runs, n: nat, cardId: Id)
    requires Inv(g, jobs, order, runs, n)
    ensures cardId in g.cards ==> g.cards[cardId].lectureId in g.lectures
    ensures Inv(Domain.DeleteCard(g, cardId), jobs, order, runs, n)
  {
    DeleteCardLinked(g, cardId);
    DeleteCardFresh(g, jobs, runs, n, cardId);
  }

  lemma DeleteCardFresh(g: Graph, jobs: map<Id, Job>, runs: Runs, n: nat, cardId: Id)
    requires FreshIds(g, jobs, runs, n) && (cardId in g.cards ==> g.cards[cardId].lectureId in g.lectures)
    ensures FreshIds(Domain.DeleteCard(g, cardId), jobs, runs, n)
  {
  }

  lemma EditCardInv(g: Graph, jobs: map<Id, Job>, order: seq<Id>, runs: Runs, n: nat,
                    cardId: Id, term: string, explanation: string)
    requires Inv(g, jobs, order, runs, n)
    ensures Inv(Domain.EditCard(g, cardId, term, explanation), jobs, order, runs, n)
  {
    EditCardLinked(g, cardId, term, explanation);
  }

  lemma RestatInv(g: Graph, jobs: map<Id, Job>, order: seq<Id>, runs: Runs, n: nat, key: Id, stats: Stats)
    requires Inv(g, jobs, order, runs, n) && key in g.cards
    ensures g.cards[key].id == key
    ensures Inv(Restat(g, key, stats), jobs, order, runs, n)
  {
    RestatLinked(g, key, stats);
  }

  lemma ImportInv(g: Graph, jobs: map<Id, Job>, order: seq<Id>, runs: Runs, n: nat, d: Snapshot, runs2: Runs)
    requires Inv(g, jobs, order, runs, n)
    requires Linked(SnapshotGraph(d)) && Disjoint(g, SnapshotGraph(d))
    requires IdsBelow(SnapshotGraph(d), n) && RunIdsBelow(runs2, n)
    ensures Inv(Import(g, d), jobs, order, runs2, n)
  {
    ImportDisjointLinked(g, d);
    ImportFresh(g, jobs, runs, n, d, runs2);
  }

  lemma ImportFresh(g: Graph, jobs: map<Id, Job>, runs: Runs, n: nat, d: Snapshot, runs2: Runs)
    requires FreshIds(g, jobs, runs, n) && IdsBelow(SnapshotGraph(d), n) && RunIdsBelow(runs2, n)
    ensures FreshIds(Import(g, d), jobs, runs2, n)
  {
  }

  // ---- jobs and ingestion --------------------------------------------------------

  /** Writing a job under its own id, an id already drawn. */
  lemma PutJobInv(g: Graph, jobs: map<Id, Job>, order: seq<Id>, runs: Runs, n: nat, job: Job)
    requires Inv(g, jobs, order, runs, n) && job.id < n
    ensures Inv(g, jobs[job.id := job], Upsert(order, job.id), runs, n)
  {
    UpsertDistinct(order, job.id);
  }

  /** The job `FirstQueued` finds is stored under its own id. */
  lemma FirstQueuedListed(jobs: map<Id, Job>, order: seq<Id>, lectureId: Id)
    requires Listed(jobs, order)
    ensures var q := FirstQueued(order, jobs, lectureId); q.Some? ==> q.value in jobs && q.value in order
  {
  }

  /** A stage change rewrites a job under its key. */
  lemma StageInv(g: Graph, jobs: map<Id, Job>, order: seq<Id>, runs: Runs, n: nat, jobId: Id, stage: Stage, progress: nat)
    requires Inv(g, jobs, order, runs, n) && jobId in jobs
    ensures Inv(g, jobs[jobId := jobs[jobId].(stage := stage, progress := progress)], order, runs, n)
  {
  }

  lemma AddSourceInv(g: Graph, jobs: map<Id, Job>, order: seq<Id>, runs: Runs, n: nat, lectureId: Id, src: SourceDoc)
    requires Inv(g, jobs, order, runs, n) && lectureId in g.lectures
    ensures Inv(AddSource(g, lectureId, src), jobs, order, runs, n)
  {
    AddSourceLinked(g, lectureId, src);
  }

  /** Merging with new ids from the counter, which then moves past them. */
  lemma MergeInv(g: Graph, jobs: map<Id, Job>, order: seq<Id>, runs: Runs, n: nat, lectureId: Id, rows: seq<Row>)
    requires Inv(g, jobs, order, runs, n) && lectureId in g.lectures
    ensures forall c :: c in g.lectures[lectureId].cardIds ==> c in g.cards
    ensures Inv(MergeInto(g, lectureId, rows, n), jobs, order, runs, n + |NewRows(g, lectureId, rows)|)
  {
    MergeLinked(g, lectureId, rows, n);
    MergeNewCards(g, lectureId, rows, n);
    MergeNewLecture(g, lectureId, rows, n);
  }

  // ---- runs ----------------------------------------------------------------------

  /** A new learning run under the id just drawn. */
  lemma NewLearningInv(g: Graph, jobs: map<Id, Job>, order: seq<Id>, runs: Runs, n: nat, run: LearningRun)
    requires Inv(g, jobs, order, runs, n)
    ensures Inv(g, jobs, order, runs.(learning := runs.learning[n := run]), n + 1)
  {
  }

  /** A new evaluation run under the id just drawn, its items having drawn the ids up to `m`. */
  lemma NewEvaluationInv(g: Graph, jobs: map<Id, Job>, order: seq<Id>, runs: Runs, n: nat, m: nat, run: EvaluationRun)
    requires Inv(g, jobs, order, runs, n) && n < m
    ensures Inv(g, jobs, order, runs.(evaluation := runs.evaluation[n := run]), m)
  {
  }

  /** A learning run rewritten under its key. */
  lemma LearningUpdateInv(g: Graph, jobs: map<Id, Job>, order: seq<Id>, runs: Runs, n: nat, runId: Id, run: LearningRun)
    requires Inv(g, jobs, order, runs, n) && runId in runs.learning
    ensures Inv(g, jobs, order, runs.(learning := runs.learning[runId := run]), n)
  {
  }

  /** An evaluation run rewritten under its key. */
  lemma EvaluationUpdateInv(g: Graph, jobs: map<Id, Job>, order: seq<Id>, runs: Runs, n: nat, runId: Id, run: EvaluationRun)
    requires Inv(g, jobs, order, runs, n) && runId in runs.evaluation
    ensures Inv(g, jobs, order, runs.(evaluation := runs.evaluation[runId := run]), n)
  {
  }
}
