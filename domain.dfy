/**
 * The study domain of frontend/src/store.js: flashcard sets hold lectures, lectures hold
 * text sources and cards. Every id-indexed collection is a map from id to record, and the
 * store's management actions are transitions of the three linked maps.
 *
 * Ids are the store's `newId()` strings; here they are natural numbers drawn from one
 * counter (see Store.nextId), so a fresh id is one not yet used as a key.
 */
module Domain {
  import opened Wrappers
  import opened Text
  import Chunking

  type Id = nat

  datatype FlashcardSet = FlashcardSet(id: Id, title: string, createdAt: int, lectureIds: seq<Id>)

  datatype SourceKind = TextSource | FileSource

  /** `file ? "file" : "text"`. */
  function KindOf(isFile: bool): SourceKind {
    if isFile then FileSource else TextSource
  }

  datatype SourceDoc = SourceDoc(
    id: Id, kind: SourceKind, name: string, text: string, chunks: seq<Chunking.TextChunk>)

  datatype Lecture = Lecture(
    id: Id, setId: Id, title: string, sources: seq<SourceDoc>, cardIds: seq<Id>)

  /** `lastSeen` and `streak` are absent until a study session sets them. */
  datatype Stats = Stats(views: int, flips: int, lastSeen: Option<int>, streak: Option<int>)

  const ZeroStats := Stats(0, 0, None, None)

  datatype Card = Card(id: Id, lectureId: Id, term: string, explanation: string, stats: Stats)

  /** The three linked maps. */
  datatype Graph = Graph(sets: map<Id, FlashcardSet>, lectures: map<Id, Lecture>, cards: map<Id, Card>)

  /** Every record sits under its own id. */
  ghost predicate KeysMatch(g: Graph) {
    && (forall s :: s in g.sets ==> g.sets[s].id == s)
    && (forall l :: l in g.lectures ==> g.lectures[l].id == l)
    && (forall c :: c in g.cards ==> g.cards[c].id == c)
  }

  /** A set lists only lectures that name it as their set. */
  ghost predicate SetsToLectures(g: Graph) {
    forall s, l :: s in g.sets && l in g.sets[s].lectureIds ==> l in g.lectures && g.lectures[l].setId == s
  }

  /** Every lecture's set exists and lists it. */
  ghost predicate LecturesToSets(g: Graph) {
    forall l :: l in g.lectures ==> g.lectures[l].setId in g.sets && l in g.sets[g.lectures[l].setId].lectureIds
  }

  /** A lecture lists only cards that name it as their lecture. */
  ghost predicate LecturesToCards(g: Graph) {
    forall l, c :: l in g.lectures && c in g.lectures[l].cardIds ==> c in g.cards && g.cards[c].lectureId == l
  }

  /** Every card's lecture exists and lists it. */
  ghost predicate CardsToLectures(g: Graph) {
    forall c :: c in g.cards ==> g.cards[c].lectureId in g.lectures && c in g.lectures[g.cards[c].lectureId].cardIds
  }

  /** The set-lecture references are two-sided. */
  ghost predicate SetLinks(g: Graph) {
    SetsToLectures(g) && LecturesToSets(g)
  }

  /** The lecture-card references are two-sided. */
  ghost predicate CardLinks(g: Graph) {
    LecturesToCards(g) && CardsToLectures(g)
  }

  /** References are two-sided: parent lists and child back-pointers agree. */
  ghost predicate Linked(g: Graph) {
    KeysMatch(g) && SetLinks(g) && CardLinks(g)
  }

  /** `xs.filter((id) => id !== x)`. */
  function Without(xs: seq<Id>, x: Id): (r: seq<Id>)
    ensures forall y :: y in r <==> y in xs && y != x
    ensures |r| <= |xs|
  {
    if xs == [] then []
    else Without(xs[..|xs| - 1], x) + (if xs[|xs| - 1] == x then [] else [xs[|xs| - 1]])
  }

  /** `createSet(title)` with the fresh id `id` and the clock reading `now`. */
  function CreateSet(g: Graph, id: Id, title: string, now: int): Graph {
    g.(sets := g.sets[id := FlashcardSet(id, title, now, [])])
  }

  /** `addLecture(setId, title)`; the parent set must exist. */
  function AddLecture(g: Graph, id: Id, setId: Id, title: string): Graph
    requires setId in g.sets
  {
    g.(lectures := g.lectures[id := Lecture(id, setId, title, [], [])],
       sets := g.sets[setId := g.sets[setId].(lectureIds := g.sets[setId].lectureIds + [id])])
  }

  /** The ids of the lectures whose `setId` is `setId`. */
  function LecturesOf(g: Graph, setId: Id): set<Id> {
    set l | l in g.lectures && g.lectures[l].setId == setId :: g.lectures[l].id
  }

  /** The ids of the cards whose `lectureId` is one of `lids`. */
  function CardsOf(g: Graph, lids: set<Id>): set<Id> {
    set c | c in g.cards && g.cards[c].lectureId in lids :: g.cards[c].id
  }

  /** `deleteSet(setId)`: the set, its lectures and their cards go. */
  function DeleteSet(g: Graph, setId: Id): Graph {
    var doomed := LecturesOf(g, setId);
    var doomedCards := CardsOf(g, doomed);
    Graph(
      map s | s in g.sets && s != setId :: g.sets[s],
      map l | l in g.lectures && l !in doomed :: g.lectures[l],
      map c | c in g.cards && c !in doomedCards :: g.cards[c])
  }

  /** `deleteLecture(lectureId)`: the lecture and its cards go, and its set forgets it. */
  function DeleteLecture(g: Graph, lectureId: Id): Graph
    requires lectureId in g.lectures ==> g.lectures[lectureId].setId in g.sets
  {
    var doomedCards := CardsOf(g, {lectureId});
    Graph(
      if lectureId in g.lectures then
        var s := g.lectures[lectureId].setId;
        g.sets[s := g.sets[s].(lectureIds := Without(g.sets[s].lectureIds, lectureId))]
      else g.sets,
      map l | l in g.lectures && l != lectureId :: g.lectures[l],
      map c | c in g.cards && c !in doomedCards :: g.cards[c])
  }

  /** `addCard(lectureId, term, explanation)` with the fresh id `id`; the lecture must exist. */
  function AddCard(g: Graph, id: Id, lectureId: Id, term: string, explanation: string): Graph
    requires lectureId in g.lectures
  {
    var l := g.lectures[lectureId];
    g.(cards := g.cards[id := Card(id, lectureId, Trim(term), Trim(explanation), ZeroStats)],
       lectures := g.lectures[lectureId := l.(cardIds := l.cardIds + [id])])
  }

  /** `deleteCard(cardId)`: the card goes and its lecture forgets it. */
  function DeleteCard(g: Graph, cardId: Id): Graph
    requires cardId in g.cards ==> g.cards[cardId].lectureId in g.lectures
  {
    Graph(
      g.sets,
      if cardId in g.cards then
        var l := g.cards[cardId].lectureId;
        g.lectures[l := g.lectures[l].(cardIds := Without(g.lectures[l].cardIds, cardId))]
      else g.lectures,
      map c | c in g.cards && c != cardId :: g.cards[c])
  }

  /** `editCard(cardId, term, explanation)`: an unknown id changes nothing. */
  function EditCard(g: Graph, cardId: Id, term: string, explanation: string): Graph {
    if cardId !in g.cards then g
    else g.(cards := g.cards[cardId := g.cards[cardId].(term := Trim(term), explanation := Trim(explanation))])
  }

  /** The maps of an imported snapshot; an absent map is `{}`. */
  datatype Snapshot = Snapshot(
    sets: Option<map<Id, FlashcardSet>>,
    lectures: Option<map<Id, Lecture>>,
    cards: Option<map<Id, Card>>)

  function SnapshotGraph(d: Snapshot): Graph {
    Graph(d.sets.GetOr(map[]), d.lectures.GetOr(map[]), d.cards.GetOr(map[]))
  }

  /** Each map of `g` unioned with the one of `e`, the records of `e` winning. */
  function Union(g: Graph, e: Graph): Graph {
    Graph(g.sets + e.sets, g.lectures + e.lectures, g.cards + e.cards)
  }

  /** `importJSON`: the store's maps unioned with the imported ones. */
  function Import(g: Graph, d: Snapshot): Graph {
    Union(g, SnapshotGraph(d))
  }

  // ---- what each transition does --------------------------------------------------

  /** With records under their own ids, `LecturesOf` holds exactly the lectures naming the set. */
  lemma LecturesOfMembers(g: Graph, setId: Id)
    requires KeysMatch(g)
    ensures forall l :: l in g.lectures ==> (l in LecturesOf(g, setId) <==> g.lectures[l].setId == setId)
    ensures forall l :: l in LecturesOf(g, setId) ==> l in g.lectures
  {
    forall l | l in LecturesOf(g, setId) ensures l in g.lectures && g.lectures[l].setId == setId {
      var l' :| l' in g.lectures && g.lectures[l'].setId == setId && g.lectures[l'].id == l;
    }
  }

  /** With records under their own ids, `CardsOf` holds exactly the cards of those lectures. */
  lemma CardsOfMembers(g: Graph, lids: set<Id>)
    requires KeysMatch(g)
    ensures forall c :: c in g.cards ==> (c in CardsOf(g, lids) <==> g.cards[c].lectureId in lids)
  {
    forall c | c in CardsOf(g, lids) ensures c in g.cards && g.cards[c].lectureId in lids {
      var c' :| c' in g.cards && g.cards[c'].lectureId in lids && g.cards[c'].id == c;
    }
  }

  lemma CreateSetSpec(g: Graph, id: Id, title: string, now: int)
    requires id !in g.sets
    ensures var h := CreateSet(g, id, title, now);
      && h.sets.Keys == g.sets.Keys + {id}
      && h.sets[id].lectureIds == [] && h.sets[id].title == title
      && (forall s :: s in g.sets ==> h.sets[s] == g.sets[s])
      && h.lectures == g.lectures && h.cards == g.cards
  {
  }

  lemma AddLectureSpec(g: Graph, id: Id, setId: Id, title: string)
    requires setId in g.sets && id !in g.lectures
    ensures var h := AddLecture(g, id, setId, title);
      && h.lectures.Keys == g.lectures.Keys + {id}
      && h.lectures[id].setId == setId && h.lectures[id].cardIds == [] && h.lectures[id].sources == []
      && h.sets[setId].lectureIds == g.sets[setId].lectureIds + [id]
      && h.sets.Keys == g.sets.Keys
      && (forall s :: s in g.sets && s != setId ==> h.sets[s] == g.sets[s])
      && (forall l :: l in g.lectures ==> h.lectures[l] == g.lectures[l])
      && h.cards == g.cards
  {
  }

  /**
   * `deleteSet` removes exactly the set, the lectures naming it and the cards of those
   * lectures; every surviving record is unchanged.
   */
  lemma DeleteSetSpec(g: Graph, setId: Id)
    requires KeysMatch(g)
    ensures var h := DeleteSet(g, setId);
      && h.sets.Keys == g.sets.Keys - {setId}
      && (forall l :: l in h.lectures <==> l in g.lectures && g.lectures[l].setId != setId)
      && (forall c :: c in h.cards <==>
            c in g.cards && !(g.cards[c].lectureId in g.lectures && g.lectures[g.cards[c].lectureId].setId == setId))
      && (forall s :: s in h.sets ==> h.sets[s] == g.sets[s])
      && (forall l :: l in h.lectures ==> h.lectures[l] == g.lectures[l])
      && (forall c :: c in h.cards ==> h.cards[c] == g.cards[c])
  {
    LecturesOfMembers(g, setId);
    CardsOfMembers(g, LecturesOf(g, setId));
  }

  /** `deleteLecture` removes exactly the lecture and its cards; the others are unchanged. */
  lemma DeleteLectureSpec(g: Graph, lectureId: Id)
    requires KeysMatch(g) && (lectureId in g.lectures ==> g.lectures[lectureId].setId in g.sets)
    ensures var h := DeleteLecture(g, lectureId);
      && h.lectures.Keys == g.lectures.Keys - {lectureId}
      && (forall c :: c in h.cards <==> c in g.cards && g.cards[c].lectureId != lectureId)
      && (forall l :: l in h.lectures ==> h.lectures[l] == g.lectures[l])
      && (forall c :: c in h.cards ==> h.cards[c] == g.cards[c])
  {
    CardsOfMembers(g, {lectureId});
  }

  /** On a linked graph `deleteLecture` drops the lecture from its set's list and from no other. */
  lemma DeleteLectureSets(g: Graph, lectureId: Id)
    requires SetsToLectures(g) && LecturesToSets(g)
    ensures var h := DeleteLecture(g, lectureId);
      && h.sets.Keys == g.sets.Keys
      && (forall s :: s in g.sets ==> h.sets[s].lectureIds == Without(g.sets[s].lectureIds, lectureId))
      && (forall s :: s in g.sets ==> h.sets[s] == g.sets[s].(lectureIds := h.sets[s].lectureIds))
  {
    var h := DeleteLecture(g, lectureId);
    forall s | s in g.sets ensures h.sets[s].lectureIds == Without(g.sets[s].lectureIds, lectureId) {
      if lectureId !in g.lectures || s != g.lectures[lectureId].setId {
        assert lectureId !in g.sets[s].lectureIds;
        WithoutAbsent(g.sets[s].lectureIds, lectureId);
      }
    }
  }

  /** Filtering out an absent id changes nothing. */
  lemma {:induction false} WithoutAbsent(xs: seq<Id>, x: Id)
    requires x !in xs
    ensures Without(xs, x) == xs
  {
    if xs != [] {
      WithoutAbsent(xs[..|xs| - 1], x);
      assert xs[..|xs| - 1] + [xs[|xs| - 1]] == xs;
    }
  }

  lemma AddCardSpec(g: Graph, id: Id, lectureId: Id, term: string, explanation: string)
    requires lectureId in g.lectures && id !in g.cards
    ensures var h := AddCard(g, id, lectureId, term, explanation);
      && h.cards.Keys == g.cards.Keys + {id}
      && h.cards[id] == Card(id, lectureId, Trim(term), Trim(explanation), ZeroStats)
      && h.lectures[lectureId].cardIds == g.lectures[lectureId].cardIds + [id]
      && h.lectures.Keys == g.lectures.Keys
      && (forall l :: l in g.lectures && l != lectureId ==> h.lectures[l] == g.lectures[l])
      && (forall c :: c in g.cards ==> h.cards[c] == g.cards[c])
      && h.sets == g.sets
  {
  }

  /** `deleteCard` removes exactly the card; the others and the sets are unchanged. */
  lemma DeleteCardSpec(g: Graph, cardId: Id)
    requires cardId in g.cards ==> g.cards[cardId].lectureId in g.lectures
    ensures var h := DeleteCard(g, cardId);
      && h.cards.Keys == g.cards.Keys - {cardId}
      && h.lectures.Keys == g.lectures.Keys
      && (forall c :: c in h.cards ==> h.cards[c] == g.cards[c])
      && h.sets == g.sets
  {
  }

  /** On a linked graph `deleteCard` drops the card from its lecture's list and from no other. */
  lemma DeleteCardLectures(g: Graph, cardId: Id)
    requires LecturesToCards(g) && CardsToLectures(g)
    ensures var h := DeleteCard(g, cardId);
      && (forall l :: l in g.lectures ==> h.lectures[l].cardIds == Without(g.lectures[l].cardIds, cardId))
      && (forall l :: l in g.lectures ==> h.lectures[l] == g.lectures[l].(cardIds := h.lectures[l].cardIds))
  {
    var h := DeleteCard(g, cardId);
    forall l | l in g.lectures ensures h.lectures[l].cardIds == Without(g.lectures[l].cardIds, cardId) {
      if cardId !in g.cards || l != g.cards[cardId].lectureId {
        assert cardId !in g.lectures[l].cardIds;
        WithoutAbsent(g.lectures[l].cardIds, cardId);
      }
    }
  }

  lemma EditCardSpec(g: Graph, cardId: Id, term: string, explanation: string)
    ensures var h := EditCard(g, cardId, term, explanation);
      && h.sets == g.sets && h.lectures == g.lectures && h.cards.Keys == g.cards.Keys
      && (forall c :: c in g.cards && c != cardId ==> h.cards[c] == g.cards[c])
      && (cardId in g.cards ==>
            h.cards[cardId] == g.cards[cardId].(term := Trim(term), explanation := Trim(explanation)))
  {
  }

  /**
   * Importing keeps every id already present and every imported record; a record present
   * on both sides is the imported one.
   */
  lemma ImportSpec(g: Graph, d: Snapshot)
    ensures var h := Import(g, d); var e := SnapshotGraph(d);
      && h.sets.Keys == g.sets.Keys + e.sets.Keys
      && h.lectures.Keys == g.lectures.Keys + e.lectures.Keys
      && h.cards.Keys == g.cards.Keys + e.cards.Keys
      && (forall s :: s in e.sets ==> h.sets[s] == e.sets[s])
      && (forall s :: s in g.sets && s !in e.sets ==> h.sets[s] == g.sets[s])
      && (forall l :: l in e.lectures ==> h.lectures[l] == e.lectures[l])
      && (forall l :: l in g.lectures && l !in e.lectures ==> h.lectures[l] == g.lectures[l])
      && (forall c :: c in e.cards ==> h.cards[c] == e.cards[c])
      && (forall c :: c in g.cards && c !in e.cards ==> h.cards[c] == g.cards[c])
  {
  }

  // ---- study runs -------------------------------------------------------------

  /** A learning or evaluation run's scope: the whole set, or chosen lectures. */
  datatype Scope = All | Lectures(ids: seq<Id>)

  /** The lectures a scope names; `"all"` reads the set's own list. */
  function ScopeLectures(sets: map<Id, FlashcardSet>, setId: Id, scope: Scope): seq<Id>
    requires scope.All? ==> setId in sets
  {
    if scope.All? then sets[setId].lectureIds else scope.ids
  }

  /** `lectureIds.flatMap((lid) => lectures[lid]?.cardIds || [])`. */
  function CardOrder(lectures: map<Id, Lecture>, lids: seq<Id>): seq<Id> {
    if lids == [] then []
    else
      CardOrder(lectures, lids[..|lids| - 1])
        + (if lids[|lids| - 1] in lectures then lectures[lids[|lids| - 1]].cardIds else [])
  }

  /** The order is the scoped lectures' card lists laid end to end, in scope order. */
  lemma {:induction false} CardOrderConcat(lectures: map<Id, Lecture>, a: seq<Id>, b: seq<Id>)
    ensures CardOrder(lectures, a + b) == CardOrder(lectures, a) + CardOrder(lectures, b)
    decreases |b|
  {
    if b == [] {
      assert a + b == a;
    } else {
      assert (a + b)[..|a + b| - 1] == a + b[..|b| - 1];
      CardOrderConcat(lectures, a, b[..|b| - 1]);
    }
  }

  /** A card is in the order exactly when some existing scoped lecture lists it. */
  lemma {:induction false} CardOrderMembers(lectures: map<Id, Lecture>, lids: seq<Id>, c: Id)
    ensures c in CardOrder(lectures, lids) <==>
      exists i :: 0 <= i < |lids| && lids[i] in lectures && c in lectures[lids[i]].cardIds
  {
    if lids != [] {
      var pre := lids[..|lids| - 1];
      CardOrderMembers(lectures, pre, c);
      if exists i :: 0 <= i < |pre| && pre[i] in lectures && c in lectures[pre[i]].cardIds {
        var i :| 0 <= i < |pre| && pre[i] in lectures && c in lectures[pre[i]].cardIds;
        assert lids[i] == pre[i];
      }
      if exists i :: 0 <= i < |lids| && lids[i] in lectures && c in lectures[lids[i]].cardIds {
        var i :| 0 <= i < |lids| && lids[i] in lectures && c in lectures[lids[i]].cardIds;
        if i < |pre| {
          assert pre[i] == lids[i];
        }
      }
    }
  }

  /** On a linked graph every card of a run's order exists and belongs to a scoped lecture. */
  lemma CardOrderExists(g: Graph, lids: seq<Id>, c: Id)
    requires Linked(g) && c in CardOrder(g.lectures, lids)
    ensures c in g.cards && g.cards[c].lectureId in lids
  {
    CardOrderMembers(g.lectures, lids, c);
  }

  /** `Math.max(0, Math.min(length - 1, cursor + delta))`. */
  function Clamp(cursor: int, delta: int, length: nat): (r: int)
    ensures 0 <= r <= Max(0, length - 1)
    ensures 0 <= cursor + delta < length ==> r == cursor + delta
    ensures cursor + delta < 0 ==> r == 0
    ensures cursor + delta >= length ==> r == Max(0, length - 1)
  {
    Max(0, Min(length - 1, cursor + delta))
  }

  // ---- ingestion and study updates ------------------------------------------------

  /** Stage 2 of an ingestion: the source document is appended to the lecture's sources. */
  function AddSource(g: Graph, lectureId: Id, src: SourceDoc): Graph
    requires lectureId in g.lectures
  {
    var l := g.lectures[lectureId];
    g.(lectures := g.lectures[lectureId := l.(sources := l.sources + [src])])
  }

  /** Only the lecture's sources change; its id, set and cards stay. */
  lemma AddSourceSpec(g: Graph, lectureId: Id, src: SourceDoc)
    requires lectureId in g.lectures
    ensures var h := AddSource(g, lectureId, src);
      && h.sets == g.sets && h.cards == g.cards && h.lectures.Keys == g.lectures.Keys
      && h.lectures[lectureId].sources == g.lectures[lectureId].sources + [src]
      && h.lectures[lectureId] == g.lectures[lectureId].(sources := h.lectures[lectureId].sources)
      && (forall l :: l in g.lectures && l != lectureId ==> h.lectures[l] == g.lectures[l])
  {
  }

  /** The card stored under `key` gets new stats; the study counters and streaks do this. */
  function Restat(g: Graph, key: Id, stats: Stats): Graph
    requires key in g.cards
  {
    g.(cards := g.cards[key := g.cards[key].(stats := stats)])
  }
}
