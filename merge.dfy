/**
 * The upsert step of `ingestText` (frontend/src/store.js:120-161, and the same code in
 * frontend/src/App.jsx:131-173): the lecture's cards are indexed by normalized term, each
 * generated row either lengthens the explanation of the matching existing card or becomes a
 * new card of the lecture.
 *
 * The index is built once, before the rows are read, and never updated: a row is always
 * compared with the card as it was before the batch, so two rows with the same new key make
 * two cards, and of several rows longer than an existing card the last one wins.
 */
module Merge {
  import opened Wrappers
  import opened Text
  import opened Keyed
  import opened Domain

  /** `existingByKey`: each listed card under its normalized term, a later card replacing an earlier one. */
  function ExistingByKey(cards: map<Id, Card>, ids: seq<Id>): map<string, Card>
    requires forall c :: c in ids ==> c in cards
  {
    if ids == [] then map[]
    else
      var c := ids[|ids| - 1];
      ExistingByKey(cards, ids[..|ids| - 1])[NormalizeTerm(cards[c].term) := cards[c]]
  }

  /** Every entry of the index is a card of the store, filed under its own normalized term. */
  ghost predicate IndexOf(existing: map<string, Card>, cards: map<Id, Card>) {
    forall k :: k in existing ==>
      existing[k].id in cards && cards[existing[k].id] == existing[k] && NormalizeTerm(existing[k].term) == k
  }

  /**
   * When the listed cards sit under their own ids, the index files only those cards, each
   * under its normalized term, and every listed card's term has an entry.
   */
  lemma {:induction false} ExistingByKeySpec(cards: map<Id, Card>, ids: seq<Id>)
    requires forall c :: c in ids ==> c in cards && cards[c].id == c
    ensures IndexOf(ExistingByKey(cards, ids), cards)
    ensures forall k :: k in ExistingByKey(cards, ids) ==> ExistingByKey(cards, ids)[k].id in ids
    ensures forall c :: c in ids ==> NormalizeTerm(cards[c].term) in ExistingByKey(cards, ids)
  {
    if ids != [] {
      var pre := ids[..|ids| - 1];
      assert forall c :: c in pre ==> c in ids;
      ExistingByKeySpec(cards, pre);
      forall c | c in ids ensures NormalizeTerm(cards[c].term) in ExistingByKey(cards, ids) {
        if c != ids[|ids| - 1] {
          assert c in pre by {
            var i :| 0 <= i < |ids| && ids[i] == c;
            assert pre[i] == c;
          }
        }
      }
    }
  }

  /** The new card a row becomes: trimmed, with zero stats. */
  function NewCard(id: Id, lectureId: Id, row: Row): Card {
    Card(id, lectureId, Trim(row.term), Trim(row.explanation), ZeroStats)
  }

  /** `updatedCards`, `newCards` and `newCardIds` while the rows are read. */
  datatype MergeAcc = MergeAcc(updated: map<Id, Card>, added: map<Id, Card>, newIds: seq<Id>)

  /** One row of the `for` loop; new ids are drawn in turn from `base`. */
  function MergeStep(existing: map<string, Card>, lectureId: Id, base: nat, a: MergeAcc, row: Row): MergeAcc {
    var key := NormalizeTerm(row.term);
    if key in existing then
      var prev := existing[key];
      if Utf16Len(row.explanation) > Utf16Len(prev.explanation) then
        a.(updated := a.updated[prev.id := prev.(explanation := row.explanation)])
      else a
    else
      var id := base + |a.newIds|;
      a.(added := a.added[id := NewCard(id, lectureId, row)], newIds := a.newIds + [id])
  }

  function MergeFold(existing: map<string, Card>, lectureId: Id, base: nat, cards: map<Id, Card>, rows: seq<Row>): MergeAcc {
    if rows == [] then MergeAcc(cards, map[], [])
    else MergeStep(existing, lectureId, base, MergeFold(existing, lectureId, base, cards, rows[..|rows| - 1]), rows[|rows| - 1])
  }

  // ---- the merge in closed form ---------------------------------------------------

  /** The rows whose key matches no existing card, in order. */
  function Unmatched(existing: map<string, Card>, rows: seq<Row>): (u: seq<Row>)
    ensures |u| <= |rows|
  {
    if rows == [] then []
    else
      Unmatched(existing, rows[..|rows| - 1])
        + (if NormalizeTerm(rows[|rows| - 1].term) in existing then [] else [rows[|rows| - 1]])
  }

  /** The last row with key `key` whose explanation is longer than `len` UTF-16 code units. */
  function LastLonger(rows: seq<Row>, key: string, len: nat): (r: Option<Row>)
    ensures r.Some? ==> r.value in rows && NormalizeTerm(r.value.term) == key && Utf16Len(r.value.explanation) > len
    ensures r.None? ==> forall j :: 0 <= j < |rows| ==>
      !(NormalizeTerm(rows[j].term) == key && Utf16Len(rows[j].explanation) > len)
  {
    if rows == [] then None
    else if NormalizeTerm(rows[|rows| - 1].term) == key && Utf16Len(rows[|rows| - 1].explanation) > len then Some(rows[|rows| - 1])
    else LastLonger(rows[..|rows| - 1], key, len)
  }

  /**
   * A stored card after the merge: the one the index holds for its key takes the
   * explanation of the last row with that key that is longer than its own; every other
   * card, and that one when no row is longer, is unchanged.
   */
  function Merged(existing: map<string, Card>, cards: map<Id, Card>, rows: seq<Row>, c: Id): Card
    requires c in cards
  {
    var k := NormalizeTerm(cards[c].term);
    if k in existing && existing[k].id == c then
      match LastLonger(rows, k, Utf16Len(cards[c].explanation))
      case Some(r) => cards[c].(explanation := r.explanation)
      case None => cards[c]
    else cards[c]
  }


  /** `n` consecutive ids from `base`. */
  function Ids(base: nat, n: nat): (r: seq<Id>)
    ensures |r| == n && forall i :: 0 <= i < n ==> r[i] == base + i
  {
    if n == 0 then [] else Ids(base, n - 1) + [base + n - 1]
  }

  /** The closed form of `updatedCards` after reading `rows`. */
  ghost predicate UpdatedState(existing: map<string, Card>, cards: map<Id, Card>, rows: seq<Row>, updated: map<Id, Card>) {
    && updated.Keys == cards.Keys
    && forall c :: c in cards ==> updated[c] == Merged(existing, cards, rows, c)
  }

  /** The new cards the unmatched rows `u` become, numbered from `base`. */
  function AddedCards(lectureId: Id, base: nat, u: seq<Row>): (m: map<Id, Card>)
    ensures forall id :: id in m <==> base <= id < base + |u|
  {
    if u == [] then map[]
    else AddedCards(lectureId, base, u[..|u| - 1])[base + |u| - 1 := NewCard(base + |u| - 1, lectureId, u[|u| - 1])]
  }

  /** The `i`-th unmatched row becomes the card numbered `base + i`. */
  lemma {:induction false} AddedCardsValues(lectureId: Id, base: nat, u: seq<Row>, i: nat)
    requires i < |u|
    ensures AddedCards(lectureId, base, u)[base + i] == NewCard(base + i, lectureId, u[i])
  {
    if i < |u| - 1 {
      AddedCardsValues(lectureId, base, u[..|u| - 1], i);
    }
  }

  /** The closed form of `newCards` and `newCardIds` after reading rows whose unmatched ones are `u`. */
  ghost predicate AddedState(lectureId: Id, base: nat, u: seq<Row>, added: map<Id, Card>, newIds: seq<Id>) {
    newIds == Ids(base, |u|) && added == AddedCards(lectureId, base, u)
  }

  lemma LastLongerSnoc(rows: seq<Row>, r: Row, key: string, len: nat)
    ensures LastLonger(rows + [r], key, len)
      == if NormalizeTerm(r.term) == key && Utf16Len(r.explanation) > len then Some(r) else LastLonger(rows, key, len)
  {
    assert (rows + [r])[..|rows|] == rows;
  }

  lemma UnmatchedSnoc(existing: map<string, Card>, rows: seq<Row>, r: Row)
    ensures Unmatched(existing, rows + [r])
      == Unmatched(existing, rows) + if NormalizeTerm(r.term) in existing then [] else [r]
  {
    assert (rows + [r])[..|rows|] == rows;
  }

  /** A row whose key has an existing card updates the closed form of `updatedCards`. */
  lemma MatchedUpdated(existing: map<string, Card>, lectureId: Id, base: nat, cards: map<Id, Card>,
                       rows: seq<Row>, a: MergeAcc, r: Row)
    requires IndexOf(existing, cards) && UpdatedState(existing, cards, rows, a.updated)
    requires NormalizeTerm(r.term) in existing
    ensures UpdatedState(existing, cards, rows + [r], MergeStep(existing, lectureId, base, a, r).updated)
  {
    var kr := NormalizeTerm(r.term);
    var b := MergeStep(existing, lectureId, base, a, r);
    forall c | c in cards ensures b.updated[c] == Merged(existing, cards, rows + [r], c) {
      var k := NormalizeTerm(cards[c].term);
      LastLongerSnoc(rows, r, k, Utf16Len(cards[c].explanation));
      if k in existing && existing[k].id == c && k != kr {
        assert existing[kr].id != c;
      }
    }
  }

  /** A row whose key has no existing card leaves `updatedCards` and its closed form alone. */
  lemma UnmatchedUpdated(existing: map<string, Card>, lectureId: Id, base: nat, cards: map<Id, Card>,
                         rows: seq<Row>, a: MergeAcc, r: Row)
    requires UpdatedState(existing, cards, rows, a.updated)
    requires NormalizeTerm(r.term) !in existing
    ensures UpdatedState(existing, cards, rows + [r], MergeStep(existing, lectureId, base, a, r).updated)
  {
    forall c | c in cards ensures a.updated[c] == Merged(existing, cards, rows + [r], c) {
      LastLongerSnoc(rows, r, NormalizeTerm(cards[c].term), Utf16Len(cards[c].explanation));
    }
  }

  /** A row whose key has no existing card becomes the next new card. */
  lemma UnmatchedAdded(existing: map<string, Card>, lectureId: Id, base: nat, rows: seq<Row>, a: MergeAcc, r: Row)
    requires AddedState(lectureId, base, Unmatched(existing, rows), a.added, a.newIds)
    requires NormalizeTerm(r.term) !in existing
    ensures var b := MergeStep(existing, lectureId, base, a, r);
      AddedState(lectureId, base, Unmatched(existing, rows + [r]), b.added, b.newIds)
  {
    var u := Unmatched(existing, rows);
    var b := MergeStep(existing, lectureId, base, a, r);
    assert Unmatched(existing, rows + [r]) == u + [r] by {
      UnmatchedSnoc(existing, rows, r);
    }
    assert b.newIds == Ids(base, |u| + 1) by {
      UnmatchedStep(existing, lectureId, base, a, r);
      IdsSnoc(base, |u|);
    }
    assert b.added == AddedCards(lectureId, base, u + [r]) by {
      UnmatchedStep(existing, lectureId, base, a, r);
      AddedSnoc(lectureId, base, u, a.added, b.added, |a.newIds|, r);
    }
  }

  lemma AddedSnoc(lectureId: Id, base: nat, u: seq<Row>, a: map<Id, Card>, b: map<Id, Card>, n: nat, r: Row)
    requires a == AddedCards(lectureId, base, u) && n == |u|
    requires b == a[base + n := NewCard(base + n, lectureId, r)]
    ensures b == AddedCards(lectureId, base, u + [r])
  {
    AddedCardsSnoc(lectureId, base, u, r);
  }

  lemma IdsSnoc(base: nat, n: nat)
    ensures Ids(base, n + 1) == Ids(base, n) + [base + n]
  {}

  lemma MatchedStep(existing: map<string, Card>, lectureId: Id, base: nat, a: MergeAcc, r: Row)
    requires NormalizeTerm(r.term) in existing
    ensures var b := MergeStep(existing, lectureId, base, a, r);
      b.added == a.added && b.newIds == a.newIds
  {}

  lemma UnmatchedStep(existing: map<string, Card>, lectureId: Id, base: nat, a: MergeAcc, r: Row)
    requires NormalizeTerm(r.term) !in existing
    ensures var b := MergeStep(existing, lectureId, base, a, r);
      && b.added == a.added[base + |a.newIds| := NewCard(base + |a.newIds|, lectureId, r)]
      && b.newIds == a.newIds + [base + |a.newIds|]
  {}

  lemma AddedCardsSnoc(lectureId: Id, base: nat, u: seq<Row>, r: Row)
    ensures AddedCards(lectureId, base, u + [r]) == AddedCards(lectureId, base, u)[base + |u| := NewCard(base + |u|, lectureId, r)]
  {
    assert (u + [r])[..|u|] == u;
  }

  /** The fold computes the closed form of `updatedCards`. */
  lemma {:induction false} MergeFoldUpdated(existing: map<string, Card>, lectureId: Id, base: nat,
                                            cards: map<Id, Card>, rows: seq<Row>)
    requires IndexOf(existing, cards)
    ensures UpdatedState(existing, cards, rows, MergeFold(existing, lectureId, base, cards, rows).updated)
  {
    if rows != [] {
      var pre, r := rows[..|rows| - 1], rows[|rows| - 1];
      assert rows == pre + [r];
      MergeFoldUpdated(existing, lectureId, base, cards, pre);
      var a := MergeFold(existing, lectureId, base, cards, pre);
      if NormalizeTerm(r.term) in existing {
        MatchedUpdated(existing, lectureId, base, cards, pre, a, r);
      } else {
        UnmatchedUpdated(existing, lectureId, base, cards, pre, a, r);
      }
    }
  }

  /** The fold computes the closed form of `newCards` and `newCardIds`. */
  lemma {:induction false} MergeFoldAdded(existing: map<string, Card>, lectureId: Id, base: nat,
                                          cards: map<Id, Card>, rows: seq<Row>)
    ensures var a := MergeFold(existing, lectureId, base, cards, rows);
      AddedState(lectureId, base, Unmatched(existing, rows), a.added, a.newIds)
  {
    if rows == [] {
      assert Ids(base, 0) == [];
    } else {
      var pre, r := rows[..|rows| - 1], rows[|rows| - 1];
      assert rows == pre + [r];
      MergeFoldAdded(existing, lectureId, base, cards, pre);
      var a := MergeFold(existing, lectureId, base, cards, pre);
      if NormalizeTerm(r.term) in existing {
        assert Unmatched(existing, rows) == Unmatched(existing, pre) by {
          UnmatchedSnoc(existing, pre, r);
          assert Unmatched(existing, pre) + [] == Unmatched(existing, pre);
        }
        MatchedStep(existing, lectureId, base, a, r);
      } else {
        UnmatchedAdded(existing, lectureId, base, pre, a, r);
      }
    }
  }

  // ---- the merge on the store ---------------------------------------------------

  /** The cards and lectures after the upsert of `rows` into lecture `lectureId`. */
  function MergeInto(g: Graph, lectureId: Id, rows: seq<Row>, base: nat): Graph
    requires lectureId in g.lectures
    requires forall c :: c in g.lectures[lectureId].cardIds ==> c in g.cards
  {
    var l := g.lectures[lectureId];
    var a := MergeFold(ExistingByKey(g.cards, l.cardIds), lectureId, base, g.cards, rows);
    g.(cards := a.updated + a.added, lectures := g.lectures[lectureId := l.(cardIds := l.cardIds + a.newIds)])
  }

  /** The preconditions the store meets when it merges: the lecture exists and new ids are unused. */
  ghost predicate CanMerge(g: Graph, lectureId: Id, base: nat) {
    && lectureId in g.lectures
    && (forall c :: c in g.lectures[lectureId].cardIds ==> c in g.cards && g.cards[c].id == c)
    && (forall c :: c in g.cards ==> c < base)
  }

  /** The rows of a merge that become new cards. */
  function NewRows(g: Graph, lectureId: Id, rows: seq<Row>): seq<Row>
    requires lectureId in g.lectures
    requires forall c :: c in g.lectures[lectureId].cardIds ==> c in g.cards
  {
    Unmatched(ExistingByKey(g.cards, g.lectures[lectureId].cardIds), rows)
  }

  /**
   * The stored cards keep their ids, terms, lectures and stats; only the explanation of the
   * card the index holds for a key can change, to the last strictly longer row with that key.
   * Cards not listed by the lecture never change, and no card is removed.
   */
  lemma MergeExisting(g: Graph, lectureId: Id, rows: seq<Row>, base: nat)
    requires CanMerge(g, lectureId, base)
    ensures var h := MergeInto(g, lectureId, rows, base); var e := ExistingByKey(g.cards, g.lectures[lectureId].cardIds);
      && (forall c :: c in g.cards ==> c in h.cards && h.cards[c] == Merged(e, g.cards, rows, c))
      && (forall c :: c in g.cards ==> h.cards[c] == g.cards[c].(explanation := h.cards[c].explanation))
      && (forall c :: c in g.cards && c !in g.lectures[lectureId].cardIds ==> h.cards[c] == g.cards[c])
      && (forall c :: c in g.cards && h.cards[c].explanation != g.cards[c].explanation ==>
            exists j :: (0 <= j < |rows| && h.cards[c].explanation == rows[j].explanation
              && NormalizeTerm(rows[j].term) == NormalizeTerm(g.cards[c].term)
              && Utf16Len(rows[j].explanation) > Utf16Len(g.cards[c].explanation)))
  {
    var l := g.lectures[lectureId];
    var e := ExistingByKey(g.cards, l.cardIds);
    ExistingByKeySpec(g.cards, l.cardIds);
    MergeFoldUpdated(e, lectureId, base, g.cards, rows);
    MergeFoldAdded(e, lectureId, base, g.cards, rows);
    forall c | c in g.cards
      ensures Merged(e, g.cards, rows, c) == g.cards[c].(explanation := Merged(e, g.cards, rows, c).explanation)
      ensures Merged(e, g.cards, rows, c).explanation != g.cards[c].explanation ==>
        exists j :: (0 <= j < |rows| && Merged(e, g.cards, rows, c).explanation == rows[j].explanation
          && NormalizeTerm(rows[j].term) == NormalizeTerm(g.cards[c].term)
          && Utf16Len(rows[j].explanation) > Utf16Len(g.cards[c].explanation))
    {
      MergedChange(e, g.cards, rows, c);
    }
  }

  /** A merged card differs from the stored one at most in its explanation, which then comes from a longer row with its key. */
  lemma MergedChange(existing: map<string, Card>, cards: map<Id, Card>, rows: seq<Row>, c: Id)
    requires c in cards
    ensures Merged(existing, cards, rows, c) == cards[c].(explanation := Merged(existing, cards, rows, c).explanation)
    ensures Merged(existing, cards, rows, c).explanation != cards[c].explanation ==>
      exists j :: (0 <= j < |rows| && Merged(existing, cards, rows, c).explanation == rows[j].explanation
        && NormalizeTerm(rows[j].term) == NormalizeTerm(cards[c].term)
        && Utf16Len(rows[j].explanation) > Utf16Len(cards[c].explanation))
  {
    if Merged(existing, cards, rows, c).explanation != cards[c].explanation {
      var r := LastLonger(rows, NormalizeTerm(cards[c].term), Utf16Len(cards[c].explanation)).value;
      var j :| 0 <= j < |rows| && rows[j] == r;
    }
  }

  /** The rows with no matching card become new cards of the lecture, in order, under consecutive new ids. */
  lemma MergeNewCards(g: Graph, lectureId: Id, rows: seq<Row>, base: nat)
    requires CanMerge(g, lectureId, base)
    ensures var h := MergeInto(g, lectureId, rows, base); var u := NewRows(g, lectureId, rows);
      && (forall c :: c in h.cards <==> c in g.cards || base <= c < base + |u|)
      && (forall i :: 0 <= i < |u| ==> h.cards[base + i] == NewCard(base + i, lectureId, u[i]))
  {
    var l := g.lectures[lectureId];
    var e := ExistingByKey(g.cards, l.cardIds);
    ExistingByKeySpec(g.cards, l.cardIds);
    var a := MergeFold(e, lectureId, base, g.cards, rows);
    MergeFoldUpdated(e, lectureId, base, g.cards, rows);
    MergeFoldAdded(e, lectureId, base, g.cards, rows);
    var u := NewRows(g, lectureId, rows);
    var h := MergeInto(g, lectureId, rows, base);
    assert h.cards == a.updated + a.added;
    assert a.added == AddedCards(lectureId, base, u);
    assert a.updated.Keys == g.cards.Keys;
    forall i | 0 <= i < |u|
      ensures h.cards[base + i] == NewCard(base + i, lectureId, u[i])
    {
      assert base + i in a.added;
      AddedCardsValues(lectureId, base, u, i);
    }
  }

  /**
   * The new ids are appended to the lecture's card list; nothing else of it changes, and
   * the other lectures and the sets are unchanged.
   */
  lemma MergeNewLecture(g: Graph, lectureId: Id, rows: seq<Row>, base: nat)
    requires CanMerge(g, lectureId, base)
    ensures var h := MergeInto(g, lectureId, rows, base); var u := NewRows(g, lectureId, rows);
      && h.lectures[lectureId].cardIds == g.lectures[lectureId].cardIds + Ids(base, |u|)
      && h.lectures[lectureId] == g.lectures[lectureId].(cardIds := h.lectures[lectureId].cardIds)
      && h.lectures.Keys == g.lectures.Keys
      && (forall l :: l in g.lectures && l != lectureId ==> h.lectures[l] == g.lectures[l])
      && h.sets == g.sets
  {
    var l := g.lectures[lectureId];
    var e := ExistingByKey(g.cards, l.cardIds);
    ExistingByKeySpec(g.cards, l.cardIds);
    MergeFoldAdded(e, lectureId, base, g.cards, rows);
  }

  /** What the reference invariant needs to know about a merge. */
  ghost predicate MergeShape(g: Graph, h: Graph, lectureId: Id, base: nat, u: seq<Row>) {
    && lectureId in g.lectures && lectureId in h.lectures
    && (forall c :: c in h.cards <==> c in g.cards || base <= c < base + |u|)
    && (forall c :: c in g.cards ==> c < base && h.cards[c] == g.cards[c].(explanation := h.cards[c].explanation))
    && (forall i :: 0 <= i < |u| ==> h.cards[base + i] == NewCard(base + i, lectureId, u[i]))
    && h.lectures[lectureId].cardIds == g.lectures[lectureId].cardIds + Ids(base, |u|)
    && h.lectures[lectureId] == g.lectures[lectureId].(cardIds := h.lectures[lectureId].cardIds)
    && h.lectures.Keys == g.lectures.Keys
    && (forall l :: l in g.lectures && l != lectureId ==> h.lectures[l] == g.lectures[l])
    && h.sets == g.sets
  }

  /** Merging into a linked store with unused new ids keeps references two-sided. */
  lemma MergeLinked(g: Graph, lectureId: Id, rows: seq<Row>, base: nat)
    requires Linked(g) && lectureId in g.lectures && forall c :: c in g.cards ==> c < base
    ensures Linked(MergeInto(g, lectureId, rows, base))
  {
    var h := MergeInto(g, lectureId, rows, base);
    var u := NewRows(g, lectureId, rows);
    MergeExisting(g, lectureId, rows, base);
    MergeNewCards(g, lectureId, rows, base);
    MergeNewLecture(g, lectureId, rows, base);
    assert MergeShape(g, h, lectureId, base, u);
    MergeKeys(g, h, lectureId, base, u);
    MergeSetLinks(g, h, lectureId, base, u);
    MergeLecturesToCards(g, h, lectureId, base, u);
    MergeCardsToLectures(g, h, lectureId, base, u);
  }

  lemma MergeKeys(g: Graph, h: Graph, lectureId: Id, base: nat, u: seq<Row>)
    requires KeysMatch(g) && MergeShape(g, h, lectureId, base, u)
    ensures KeysMatch(h)
  {
    forall l | l in h.lectures ensures h.lectures[l].id == l {
      assert l in g.lectures;
    }
    forall c | c in h.cards ensures h.cards[c].id == c {
      if c !in g.cards {
        var i := c - base;
        assert 0 <= i < |u| && base + i == c;
        assert h.cards[base + i] == NewCard(base + i, lectureId, u[i]);
      }
    }
  }

  lemma MergeSetLinks(g: Graph, h: Graph, lectureId: Id, base: nat, u: seq<Row>)
    requires SetLinks(g) && MergeShape(g, h, lectureId, base, u)
    ensures SetLinks(h)
  {
  }

  lemma MergeLecturesToCards(g: Graph, h: Graph, lectureId: Id, base: nat, u: seq<Row>)
    requires LecturesToCards(g) && MergeShape(g, h, lectureId, base, u)
    ensures LecturesToCards(h)
  {
    forall l, c | l in h.lectures && c in h.lectures[l].cardIds ensures c in h.cards && h.cards[c].lectureId == l {
      assert l in g.lectures;
      if l == lectureId && c !in g.lectures[l].cardIds {
        var ids := Ids(base, |u|);
        assert c in ids;
        var i :| 0 <= i < |ids| && ids[i] == c;
        assert c == base + i;
        assert h.cards[base + i] == NewCard(base + i, lectureId, u[i]);
      } else {
        assert c in g.lectures[l].cardIds;
        assert c in g.cards && g.cards[c].lectureId == l;
      }
    }
  }

  lemma MergeCardsToLectures(g: Graph, h: Graph, lectureId: Id, base: nat, u: seq<Row>)
    requires CardsToLectures(g) && MergeShape(g, h, lectureId, base, u)
    ensures CardsToLectures(h)
  {
    forall c | c in h.cards
      ensures h.cards[c].lectureId in h.lectures && c in h.lectures[h.cards[c].lectureId].cardIds
    {
      var prior := g.lectures[lectureId].cardIds;
      if c !in g.cards {
        var i := c - base;
        assert 0 <= i < |u| && base + i == c;
        assert h.cards[base + i] == NewCard(base + i, lectureId, u[i]);
        var ids := Ids(base, |u|);
        assert h.lectures[lectureId].cardIds == prior + ids;
        assert h.lectures[lectureId].cardIds[|prior| + i] == ids[i] == c;
      } else {
        var l := g.cards[c].lectureId;
        assert h.cards[c].lectureId == l;
        assert l in g.lectures && c in g.lectures[l].cardIds;
        if l == lectureId {
          assert h.lectures[lectureId].cardIds == prior + Ids(base, |u|);
          assert c in h.lectures[lectureId].cardIds;
        }
      }
    }
  }

  /**
   * Rows with the same new key are not merged with each other: two such rows give two
   * distinct new cards of the lecture whose terms normalize to the same key.
   */
  lemma DuplicateNewKeys(g: Graph, lectureId: Id, rows: seq<Row>, base: nat, i: nat, j: nat)
    requires CanMerge(g, lectureId, base)
    requires i < j < |NewRows(g, lectureId, rows)|
    requires NormalizeTerm(NewRows(g, lectureId, rows)[i].term) == NormalizeTerm(NewRows(g, lectureId, rows)[j].term)
    ensures var h := MergeInto(g, lectureId, rows, base);
      && base + i in h.cards && base + j in h.cards && base + i != base + j
      && h.cards[base + i].lectureId == lectureId && h.cards[base + j].lectureId == lectureId
      && NormalizeTerm(h.cards[base + i].term) == NormalizeTerm(h.cards[base + j].term)
  {
    var u := NewRows(g, lectureId, rows);
    MergeNewCards(g, lectureId, rows, base);
    NormalizeTrim(u[i].term);
    NormalizeTrim(u[j].term);
  }

  // ---- the loops of the source ------------------------------------------------------

  /** The `L.cardIds.forEach` that fills `existingByKey`. */
  method IndexCards(cards: map<Id, Card>, ids: seq<Id>) returns (existing: map<string, Card>)
    requires forall c :: c in ids ==> c in cards
    ensures existing == ExistingByKey(cards, ids)
  {
    existing := map[];
    for i := 0 to |ids|
      invariant existing == ExistingByKey(cards, ids[..i])
    {
      assert ids[..i + 1][..i] == ids[..i];
      existing := existing[NormalizeTerm(cards[ids[i]].term) := cards[ids[i]]];
    }
    assert ids[..|ids|] == ids;
  }

  /** One pass of the upsert loop: a matched row may lengthen its card, an unmatched row becomes a new card. */
  method MergeRow(existing: map<string, Card>, lectureId: Id, base: nat, a: MergeAcc, row: Row) returns (b: MergeAcc)
    ensures b == MergeStep(existing, lectureId, base, a, row)
  {
    var key := NormalizeTerm(row.term);
    b := a;
    if key in existing {
      var prev := existing[key];
      if Utf16Len(row.explanation) > Utf16Len(prev.explanation) {
        b := a.(updated := a.updated[prev.id := prev.(explanation := row.explanation)]);
      }
    } else {
      var id := base + |a.newIds|;
      b := a.(added := a.added[id := NewCard(id, lectureId, row)], newIds := a.newIds + [id]);
    }
  }

  /** The upsert as the source runs it: the index, then one loop over the generated rows. */
  method MergeRows(cards: map<Id, Card>, lecture: Lecture, lectureId: Id, rows: seq<Row>, base: nat)
    returns (updated: map<Id, Card>, added: map<Id, Card>, newIds: seq<Id>)
    requires forall c :: c in lecture.cardIds ==> c in cards
    ensures MergeAcc(updated, added, newIds) == MergeFold(ExistingByKey(cards, lecture.cardIds), lectureId, base, cards, rows)
  {
    var existing := IndexCards(cards, lecture.cardIds);
    var a := MergeAcc(cards, map[], []);
    for i := 0 to |rows|
      invariant a == MergeFold(existing, lectureId, base, cards, rows[..i])
    {
      assert rows[..i + 1][..i] == rows[..i];
      a := MergeRow(existing, lectureId, base, a, rows[i]);
    }
    assert rows[..|rows|] == rows;
    updated, added, newIds := a.updated, a.added, a.newIds;
  }

  /** The upsert on the linked maps: the merged graph and how many new ids it took. */
  method MergeGraph(g: Graph, lectureId: Id, rows: seq<Row>, base: nat) returns (h: Graph, drawn: nat)
    requires lectureId in g.lectures
    requires forall c :: c in g.lectures[lectureId].cardIds ==> c in g.cards
    ensures h == MergeInto(g, lectureId, rows, base)
    ensures drawn == |NewRows(g, lectureId, rows)|
  {
    var l := g.lectures[lectureId];
    var updated, added, newIds := MergeRows(g.cards, l, lectureId, rows, base);
    MergeFoldAdded(ExistingByKey(g.cards, l.cardIds), lectureId, base, g.cards, rows);
    h := g.(cards := updated + added, lectures := g.lectures[lectureId := l.(cardIds := l.cardIds + newIds)]);
    drawn := |newIds|;
  }
}
