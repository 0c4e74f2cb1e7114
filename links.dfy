/**
 * The store's management actions keep references two-sided (Domain.Linked): each
 * transition of frontend/src/store.js is shown to preserve each of the five parts of the
 * invariant, one lemma per part.
 */
module Links {
  import opened Domain

  // ---- createSet ----------------------------------------------------------------

  lemma CreateSetLinked(g: Graph, id: Id, title: string, now: int)
    requires id !in g.sets && Linked(g)
    ensures Linked(CreateSet(g, id, title, now))
  {
  }

  // ---- addLecture ---------------------------------------------------------------

  lemma AddLectureLinked(g: Graph, id: Id, setId: Id, title: string)
    requires setId in g.sets && id !in g.lectures && Linked(g)
    ensures Linked(AddLecture(g, id, setId, title))
  {
    AddLectureKeys(g, id, setId, title);
    AddLectureSetsToLectures(g, id, setId, title);
    AddLectureLecturesToSets(g, id, setId, title);
    AddLectureLecturesToCards(g, id, setId, title);
    AddLectureCardsToLectures(g, id, setId, title);
  }

  lemma AddLectureKeys(g: Graph, id: Id, setId: Id, title: string)
    requires setId in g.sets && KeysMatch(g)
    ensures KeysMatch(AddLecture(g, id, setId, title))
  {
  }

  lemma AddLectureSetsToLectures(g: Graph, id: Id, setId: Id, title: string)
    requires setId in g.sets && id !in g.lectures && SetsToLectures(g)
    ensures SetsToLectures(AddLecture(g, id, setId, title))
  {
    var h := AddLecture(g, id, setId, title);
    forall s, l | s in h.sets && l in h.sets[s].lectureIds
      ensures l in h.lectures && h.lectures[l].setId == s
    {
      if s == setId && l !in g.sets[s].lectureIds {
        assert l == id;
      }
    }
  }

  lemma AddLectureLecturesToSets(g: Graph, id: Id, setId: Id, title: string)
    requires setId in g.sets && LecturesToSets(g)
    ensures LecturesToSets(AddLecture(g, id, setId, title))
  {
  }

  lemma AddLectureLecturesToCards(g: Graph, id: Id, setId: Id, title: string)
    requires setId in g.sets && LecturesToCards(g)
    ensures LecturesToCards(AddLecture(g, id, setId, title))
  {
  }

  lemma AddLectureCardsToLectures(g: Graph, id: Id, setId: Id, title: string)
    requires setId in g.sets && id !in g.lectures && CardsToLectures(g)
    ensures CardsToLectures(AddLecture(g, id, setId, title))
  {
    var h := AddLecture(g, id, setId, title);
    forall c | c in h.cards
      ensures h.cards[c].lectureId in h.lectures && c in h.lectures[h.cards[c].lectureId].cardIds
    {
      assert h.cards[c].lectureId in g.lectures;
    }
  }

  // ---- deleteSet ----------------------------------------------------------------

  lemma DeleteSetLinked(g: Graph, setId: Id)
    requires Linked(g)
    ensures Linked(DeleteSet(g, setId))
  {
    DeleteSetKeys(g, setId);
    DeleteSetSetsToLectures(g, setId);
    DeleteSetLecturesToSets(g, setId);
    DeleteSetLecturesToCards(g, setId);
    DeleteSetCardsToLectures(g, setId);
  }

  lemma DeleteSetKeys(g: Graph, setId: Id)
    requires KeysMatch(g)
    ensures KeysMatch(DeleteSet(g, setId))
  {
  }

  lemma DeleteSetSetsToLectures(g: Graph, setId: Id)
    requires KeysMatch(g) && SetsToLectures(g)
    ensures SetsToLectures(DeleteSet(g, setId))
  {
    LecturesOfMembers(g, setId);
  }

  lemma DeleteSetLecturesToSets(g: Graph, setId: Id)
    requires KeysMatch(g) && LecturesToSets(g)
    ensures LecturesToSets(DeleteSet(g, setId))
  {
    LecturesOfMembers(g, setId);
  }

  lemma DeleteSetLecturesToCards(g: Graph, setId: Id)
    requires KeysMatch(g) && LecturesToCards(g)
    ensures LecturesToCards(DeleteSet(g, setId))
  {
    var h := DeleteSet(g, setId);
    LecturesOfMembers(g, setId);
    CardsOfMembers(g, LecturesOf(g, setId));
    forall l, c | l in h.lectures && c in h.lectures[l].cardIds ensures c in h.cards && h.cards[c].lectureId == l {
      assert c in g.cards && g.cards[c].lectureId == l;
    }
  }

  lemma DeleteSetCardsToLectures(g: Graph, setId: Id)
    requires KeysMatch(g) && CardsToLectures(g)
    ensures CardsToLectures(DeleteSet(g, setId))
  {
    var h := DeleteSet(g, setId);
    LecturesOfMembers(g, setId);
    CardsOfMembers(g, LecturesOf(g, setId));
    forall c | c in h.cards
      ensures h.cards[c].lectureId in h.lectures && c in h.lectures[h.cards[c].lectureId].cardIds
    {
      assert g.cards[c].lectureId in g.lectures;
    }
  }

  // ---- deleteLecture ------------------------------------------------------------

  lemma DeleteLectureLinked(g: Graph, lectureId: Id)
    requires Linked(g)
    ensures Linked(DeleteLecture(g, lectureId))
  {
    DeleteLectureKeys(g, lectureId);
    DeleteLectureSetsToLectures(g, lectureId);
    DeleteLectureLecturesToSets(g, lectureId);
    DeleteLectureLecturesToCards(g, lectureId);
    DeleteLectureCardsToLectures(g, lectureId);
  }

  lemma DeleteLectureKeys(g: Graph, lectureId: Id)
    requires lectureId in g.lectures ==> g.lectures[lectureId].setId in g.sets
    requires KeysMatch(g)
    ensures KeysMatch(DeleteLecture(g, lectureId))
  {
  }

  lemma DeleteLectureSetsToLectures(g: Graph, lectureId: Id)
    requires lectureId in g.lectures ==> g.lectures[lectureId].setId in g.sets
    requires SetsToLectures(g)
    ensures SetsToLectures(DeleteLecture(g, lectureId))
  {
    var h := DeleteLecture(g, lectureId);
    forall s, l | s in h.sets && l in h.sets[s].lectureIds ensures l in h.lectures && h.lectures[l].setId == s {
      if lectureId in g.lectures && s == g.lectures[lectureId].setId {
        assert l in g.sets[s].lectureIds && l != lectureId;
      }
    }
  }

  lemma DeleteLectureLecturesToSets(g: Graph, lectureId: Id)
    requires lectureId in g.lectures ==> g.lectures[lectureId].setId in g.sets
    requires LecturesToSets(g)
    ensures LecturesToSets(DeleteLecture(g, lectureId))
  {
    var h := DeleteLecture(g, lectureId);
    forall l | l in h.lectures ensures h.lectures[l].setId in h.sets && l in h.sets[h.lectures[l].setId].lectureIds {
      assert l in g.sets[g.lectures[l].setId].lectureIds;
    }
  }

  lemma DeleteLectureLecturesToCards(g: Graph, lectureId: Id)
    requires lectureId in g.lectures ==> g.lectures[lectureId].setId in g.sets
    requires KeysMatch(g) && LecturesToCards(g)
    ensures LecturesToCards(DeleteLecture(g, lectureId))
  {
    var h := DeleteLecture(g, lectureId);
    CardsOfMembers(g, {lectureId});
    forall l, c | l in h.lectures && c in h.lectures[l].cardIds ensures c in h.cards && h.cards[c].lectureId == l {
      assert c in g.cards && g.cards[c].lectureId == l;
    }
  }

  lemma DeleteLectureCardsToLectures(g: Graph, lectureId: Id)
    requires lectureId in g.lectures ==> g.lectures[lectureId].setId in g.sets
    requires KeysMatch(g) && CardsToLectures(g)
    ensures CardsToLectures(DeleteLecture(g, lectureId))
  {
    CardsOfMembers(g, {lectureId});
  }

  // ---- addCard ------------------------------------------------------------------

  lemma AddCardLinked(g: Graph, id: Id, lectureId: Id, term: string, explanation: string)
    requires lectureId in g.lectures && id !in g.cards && Linked(g)
    ensures Linked(AddCard(g, id, lectureId, term, explanation))
  {
    AddCardKeys(g, id, lectureId, term, explanation);
    AddCardSetsToLectures(g, id, lectureId, term, explanation);
    AddCardLecturesToSets(g, id, lectureId, term, explanation);
    AddCardLecturesToCards(g, id, lectureId, term, explanation);
    AddCardCardsToLectures(g, id, lectureId, term, explanation);
  }

  lemma AddCardKeys(g: Graph, id: Id, lectureId: Id, term: string, explanation: string)
    requires lectureId in g.lectures && KeysMatch(g)
    ensures KeysMatch(AddCard(g, id, lectureId, term, explanation))
  {
  }

  lemma AddCardSetsToLectures(g: Graph, id: Id, lectureId: Id, term: string, explanation: string)
    requires lectureId in g.lectures && SetsToLectures(g)
    ensures SetsToLectures(AddCard(g, id, lectureId, term, explanation))
  {
  }

  lemma AddCardLecturesToSets(g: Graph, id: Id, lectureId: Id, term: string, explanation: string)
    requires lectureId in g.lectures && LecturesToSets(g)
    ensures LecturesToSets(AddCard(g, id, lectureId, term, explanation))
  {
  }

  lemma AddCardLecturesToCards(g: Graph, id: Id, lectureId: Id, term: string, explanation: string)
    requires lectureId in g.lectures && id !in g.cards && LecturesToCards(g)
    ensures LecturesToCards(AddCard(g, id, lectureId, term, explanation))
  {
    var h := AddCard(g, id, lectureId, term, explanation);
    forall l, c | l in h.lectures && c in h.lectures[l].cardIds
      ensures c in h.cards && h.cards[c].lectureId == l
    {
      if l == lectureId && c !in g.lectures[l].cardIds {
        assert c == id;
      }
    }
  }

  lemma AddCardCardsToLectures(g: Graph, id: Id, lectureId: Id, term: string, explanation: string)
    requires lectureId in g.lectures && CardsToLectures(g)
    ensures CardsToLectures(AddCard(g, id, lectureId, term, explanation))
  {
  }

  // ---- deleteCard ---------------------------------------------------------------

  lemma DeleteCardLinked(g: Graph, cardId: Id)
    requires Linked(g)
    ensures Linked(DeleteCard(g, cardId))
  {
    DeleteCardKeys(g, cardId);
    DeleteCardSetsToLectures(g, cardId);
    DeleteCardLecturesToSets(g, cardId);
    DeleteCardLecturesToCards(g, cardId);
    DeleteCardCardsToLectures(g, cardId);
  }

  lemma DeleteCardKeys(g: Graph, cardId: Id)
    requires cardId in g.cards ==> g.cards[cardId].lectureId in g.lectures
    requires KeysMatch(g)
    ensures KeysMatch(DeleteCard(g, cardId))
  {
  }

  lemma DeleteCardSetsToLectures(g: Graph, cardId: Id)
    requires cardId in g.cards ==> g.cards[cardId].lectureId in g.lectures
    requires SetsToLectures(g)
    ensures SetsToLectures(DeleteCard(g, cardId))
  {
  }

  lemma DeleteCardLecturesToSets(g: Graph, cardId: Id)
    requires cardId in g.cards ==> g.cards[cardId].lectureId in g.lectures
    requires LecturesToSets(g)
    ensures LecturesToSets(DeleteCard(g, cardId))
  {
  }

  lemma DeleteCardLecturesToCards(g: Graph, cardId: Id)
    requires cardId in g.cards ==> g.cards[cardId].lectureId in g.lectures
    requires LecturesToCards(g)
    ensures LecturesToCards(DeleteCard(g, cardId))
  {
    var h := DeleteCard(g, cardId);
    forall l, c | l in h.lectures && c in h.lectures[l].cardIds ensures c in h.cards && h.cards[c].lectureId == l {
      assert c in g.lectures[l].cardIds && c != cardId;
    }
  }

  lemma DeleteCardCardsToLectures(g: Graph, cardId: Id)
    requires cardId in g.cards ==> g.cards[cardId].lectureId in g.lectures
    requires CardsToLectures(g)
    ensures CardsToLectures(DeleteCard(g, cardId))
  {
    var h := DeleteCard(g, cardId);
    forall c | c in h.cards
      ensures h.cards[c].lectureId in h.lectures && c in h.lectures[h.cards[c].lectureId].cardIds
    {
      assert c in g.lectures[g.cards[c].lectureId].cardIds;
    }
  }

  // ---- editCard -----------------------------------------------------------------

  lemma EditCardLinked(g: Graph, cardId: Id, term: string, explanation: string)
    requires Linked(g)
    ensures Linked(EditCard(g, cardId, term, explanation))
  {
    EditCardKeys(g, cardId, term, explanation);
    EditCardCardLinks(g, cardId, term, explanation);
  }

  lemma EditCardKeys(g: Graph, cardId: Id, term: string, explanation: string)
    requires KeysMatch(g)
    ensures KeysMatch(EditCard(g, cardId, term, explanation))
  {
  }

  lemma EditCardCardLinks(g: Graph, cardId: Id, term: string, explanation: string)
    requires CardLinks(g)
    ensures CardLinks(EditCard(g, cardId, term, explanation))
  {
  }

  // ---- importJSON ---------------------------------------------------------------

  /** The ids of a snapshot are all new to the store. */
  ghost predicate Disjoint(g: Graph, e: Graph) {
    g.sets.Keys !! e.sets.Keys && g.lectures.Keys !! e.lectures.Keys && g.cards.Keys !! e.cards.Keys
  }

  /** Importing a linked snapshot whose ids are all new keeps the reference invariant. */
  lemma ImportDisjointLinked(g: Graph, d: Snapshot)
    requires Linked(g) && Linked(SnapshotGraph(d)) && Disjoint(g, SnapshotGraph(d))
    ensures Linked(Import(g, d))
  {
    var e := SnapshotGraph(d);
    ImportKeys(g, e);
    ImportSetsToLectures(g, e);
    ImportLecturesToSets(g, e);
    ImportLecturesToCards(g, e);
    ImportCardsToLectures(g, e);
  }

  lemma ImportKeys(g: Graph, e: Graph)
    requires KeysMatch(g) && KeysMatch(e)
    ensures KeysMatch(Union(g, e))
  {
  }

  lemma ImportSetsToLectures(g: Graph, e: Graph)
    requires SetsToLectures(g) && SetsToLectures(e) && Disjoint(g, e)
    ensures SetsToLectures(Union(g, e))
  {
    var h := Union(g, e);
    forall s, l | s in h.sets && l in h.sets[s].lectureIds ensures l in h.lectures && h.lectures[l].setId == s {
      if s in e.sets {
        assert l in e.lectures;
      } else {
        assert l in g.lectures;
      }
    }
  }

  lemma ImportLecturesToSets(g: Graph, e: Graph)
    requires LecturesToSets(g) && LecturesToSets(e) && Disjoint(g, e)
    ensures LecturesToSets(Union(g, e))
  {
    var h := Union(g, e);
    forall l | l in h.lectures ensures h.lectures[l].setId in h.sets && l in h.sets[h.lectures[l].setId].lectureIds {
      if l in e.lectures {
        assert e.lectures[l].setId in e.sets;
      } else {
        assert g.lectures[l].setId in g.sets;
      }
    }
  }

  lemma ImportLecturesToCards(g: Graph, e: Graph)
    requires LecturesToCards(g) && LecturesToCards(e) && Disjoint(g, e)
    ensures LecturesToCards(Union(g, e))
  {
    var h := Union(g, e);
    forall l, c | l in h.lectures && c in h.lectures[l].cardIds ensures c in h.cards && h.cards[c].lectureId == l {
      if l in e.lectures {
        assert c in e.cards;
      } else {
        assert c in g.cards;
      }
    }
  }

  lemma ImportCardsToLectures(g: Graph, e: Graph)
    requires CardsToLectures(g) && CardsToLectures(e) && Disjoint(g, e)
    ensures CardsToLectures(Union(g, e))
  {
    var h := Union(g, e);
    forall c | c in h.cards
      ensures h.cards[c].lectureId in h.lectures && c in h.lectures[h.cards[c].lectureId].cardIds
    {
      if c in e.cards {
        assert e.cards[c].lectureId in e.lectures;
      } else {
        assert g.cards[c].lectureId in g.lectures;
      }
    }
  }

  // ---- ingestion and study updates ----------------------------------------------

  /** Recording a source touches no reference. */
  lemma AddSourceLinked(g: Graph, lectureId: Id, src: SourceDoc)
    requires Linked(g) && lectureId in g.lectures
    ensures Linked(AddSource(g, lectureId, src))
  {
    AddSourceSpec(g, lectureId, src);
    AddSourceKeys(g, lectureId, src);
    AddSourceSetLinks(g, lectureId, src);
    AddSourceCardLinks(g, lectureId, src);
  }

  lemma AddSourceKeys(g: Graph, lectureId: Id, src: SourceDoc)
    requires KeysMatch(g) && lectureId in g.lectures
    ensures KeysMatch(AddSource(g, lectureId, src))
  {
  }

  lemma AddSourceSetLinks(g: Graph, lectureId: Id, src: SourceDoc)
    requires SetLinks(g) && lectureId in g.lectures
    ensures SetLinks(AddSource(g, lectureId, src))
  {
  }

  lemma AddSourceCardLinks(g: Graph, lectureId: Id, src: SourceDoc)
    requires CardLinks(g) && lectureId in g.lectures
    ensures CardLinks(AddSource(g, lectureId, src))
  {
  }

  /** New stats touch no reference. */
  lemma RestatLinked(g: Graph, key: Id, stats: Stats)
    requires Linked(g) && key in g.cards
    ensures Linked(Restat(g, key, stats))
  {
    RestatKeys(g, key, stats);
    RestatSetLinks(g, key, stats);
    RestatCardLinks(g, key, stats);
  }

  lemma RestatSetLinks(g: Graph, key: Id, stats: Stats)
    requires SetLinks(g) && key in g.cards
    ensures SetLinks(Restat(g, key, stats))
  {
  }

  lemma RestatKeys(g: Graph, key: Id, stats: Stats)
    requires KeysMatch(g) && key in g.cards
    ensures KeysMatch(Restat(g, key, stats))
  {
  }

  lemma RestatCardLinks(g: Graph, key: Id, stats: Stats)
    requires CardLinks(g) && key in g.cards
    ensures CardLinks(Restat(g, key, stats))
  {
  }
}
