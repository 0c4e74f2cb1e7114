/**
 * Flashcard rows and the insertion-ordered dictionary the de-duplicating passes use
 * (a JavaScript `Map` in frontend/src/App.jsx, a Python `dict` in backend/utils/flashgen.py):
 * assigning to an existing key keeps its position, a new key goes last.
 */
module Keyed {
  import opened Wrappers
  import opened Text

  /** A generated `{term, explanation}` pair. */
  datatype Row = Row(term: string, explanation: string)

  /** Keys in insertion order, and the entry stored under each key. */
  datatype Table = Table(order: seq<string>, byKey: map<string, Row>)

  ghost predicate Distinct<T>(ks: seq<T>) {
    forall i, j :: 0 <= i < j < |ks| ==> ks[i] != ks[j]
  }

  ghost predicate WellFormed(t: Table) {
    Distinct(t.order) && forall k :: k in t.byKey <==> k in t.order
  }

  /** `m.set(k, r)` / `d[k] = r`. */
  function Put(t: Table, k: string, r: Row): Table {
    Table(if k in t.byKey then t.order else t.order + [k], t.byKey[k := r])
  }

  /**
   * Store `stored` under `k` when `k` is new or `r`'s explanation is strictly longer, as `c`
   * counts lengths, than the one stored under `k`; otherwise leave the table alone.
   */
  function Offer(t: Table, k: string, r: Row, stored: Row, c: Counting): (u: Table)
    ensures WellFormed(t) ==> WellFormed(u)
    ensures WellFormed(t) ==> u.order == if k in t.order then t.order else t.order + [k]
    ensures k in u.byKey
    ensures forall k' :: k' in t.byKey && k' != k ==> k' in u.byKey && u.byKey[k'] == t.byKey[k']
    ensures forall k' :: k' in u.byKey ==> k' in t.byKey || k' == k
    ensures u.byKey[k] == stored || (k in t.byKey && u.byKey[k] == t.byKey[k])
    ensures k !in t.byKey ==> u.byKey[k] == stored
  {
    if k !in t.byKey || Length(r.explanation, c) > Length(t.byKey[k].explanation, c) then Put(t, k, stored) else t
  }

  /**
   * When `k` is already stored, `Offer` replaces its entry exactly when `r`'s explanation is
   * strictly longer than the stored one, and otherwise leaves the whole table as it was.
   */
  lemma OfferReplaces(t: Table, k: string, r: Row, stored: Row, c: Counting)
    requires k in t.byKey
    ensures Length(r.explanation, c) > Length(t.byKey[k].explanation, c) ==>
      Offer(t, k, r, stored, c).byKey[k] == stored
    ensures Length(r.explanation, c) <= Length(t.byKey[k].explanation, c) ==>
      Offer(t, k, r, stored, c) == t
  {
  }

  /** The values present in a sequence of optional values, in order. */
  function Somes<T>(os: seq<Option<T>>): (r: seq<T>)
    ensures |r| <= |os|
  {
    if os == [] then []
    else Somes(os[..|os| - 1]) + (if os[|os| - 1].Some? then [os[|os| - 1].value] else [])
  }

  /** A value is kept exactly when some optional value holds it. */
  lemma {:induction false} SomesMembers<T>(os: seq<Option<T>>, r: T)
    ensures r in Somes(os) <==> exists i :: 0 <= i < |os| && os[i] == Some(r)
  {
    if os != [] {
      var pre := os[..|os| - 1];
      SomesMembers(pre, r);
      if exists i :: 0 <= i < |pre| && pre[i] == Some(r) {
        var i :| 0 <= i < |pre| && pre[i] == Some(r);
        assert os[i] == Some(r);
      }
      if exists i :: 0 <= i < |os| && os[i] == Some(r) {
        var i :| 0 <= i < |os| && os[i] == Some(r);
        if i < |pre| {
          assert pre[i] == Some(r);
        }
      }
    }
  }

  /** The values of a prefix one longer. */
  lemma SomesStep<T>(os: seq<Option<T>>, i: nat)
    requires i < |os|
    ensures Somes(os[..i + 1]) == Somes(os[..i]) + (if os[i].Some? then [os[i].value] else [])
  {
    assert os[..i + 1][..i] == os[..i];
  }

  /** Keeping the values commutes with concatenation, so their order is the input order. */
  lemma {:induction false} SomesConcat<T>(a: seq<Option<T>>, b: seq<Option<T>>)
    ensures Somes(a + b) == Somes(a) + Somes(b)
    decreases |b|
  {
    if b == [] {
      assert a + b == a;
    } else {
      var pre := b[..|b| - 1];
      assert (a + b)[..|a + b| - 1] == a + pre;
      SomesConcat(a, pre);
    }
  }

  /** `Array.from(m.values())` / `list(d.values())`. */
  function Values(t: Table): (r: seq<Row>)
    requires forall i :: 0 <= i < |t.order| ==> t.order[i] in t.byKey
    ensures |r| == |t.order|
    ensures forall i :: 0 <= i < |r| ==> r[i] == t.byKey[t.order[i]]
  {
    seq(|t.order|, i requires 0 <= i < |t.order| => t.byKey[t.order[i]])
  }

  /** The distinct elements of `ks`, each kept where it first occurs. */
  function FirstOccurrences<T(==)>(ks: seq<T>): seq<T> {
    if ks == [] then []
    else
      var pre := FirstOccurrences(ks[..|ks| - 1]);
      if ks[|ks| - 1] in pre then pre else pre + [ks[|ks| - 1]]
  }

  /** The index where `k` first occurs in `ks`. */
  function FirstPos<T(==)>(ks: seq<T>, k: T): (p: nat)
    requires k in ks
    ensures p < |ks| && ks[p] == k
    ensures forall j :: 0 <= j < p ==> ks[j] != k
  {
    if ks[0] == k then 0 else 1 + FirstPos(ks[1..], k)
  }

  lemma FirstPosAppend<T>(ks: seq<T>, x: T, k: T)
    requires k in ks
    ensures k in ks + [x] && FirstPos(ks + [x], k) == FirstPos(ks, k)
  {
    assert (ks + [x])[FirstPos(ks, k)] == k;
  }

  /** `FirstOccurrences` holds exactly the elements of `ks`. */
  lemma {:induction false} FirstOccurrencesMembers<T>(ks: seq<T>)
    ensures forall k :: k in FirstOccurrences(ks) <==> k in ks
  {
    if ks != [] {
      var pre, x := ks[..|ks| - 1], ks[|ks| - 1];
      assert ks == pre + [x];
      FirstOccurrencesMembers(pre);
    }
  }

  /** `FirstOccurrences` holds each element once. */
  lemma {:induction false} FirstOccurrencesDistinct<T>(ks: seq<T>)
    ensures Distinct(FirstOccurrences(ks))
  {
    if ks != [] {
      var pre, x := ks[..|ks| - 1], ks[|ks| - 1];
      FirstOccurrencesDistinct(pre);
      var fo := FirstOccurrences(pre);
      if x !in fo {
        var r := fo + [x];
        forall i, j | 0 <= i < j < |r| ensures r[i] != r[j] {
          if j == |fo| {
            assert r[i] == fo[i];
          }
        }
      }
    }
  }

  /** Where `x` is new to `pre`, it first occurs at the end of `pre + [x]`. */
  lemma FirstPosLast<T>(pre: seq<T>, x: T)
    requires x !in pre
    ensures x in pre + [x] && FirstPos(pre + [x], x) == |pre|
  {
  }

  /** `fo`, drawn from `ks`, lists its elements by where each first occurs in `ks`. */
  ghost predicate InFirstOrder<T>(fo: seq<T>, ks: seq<T>) {
    (forall k :: k in fo ==> k in ks) &&
    forall i, j :: 0 <= i < j < |fo| ==> FirstPos(ks, fo[i]) < FirstPos(ks, fo[j])
  }

  /** Appending to `ks` keeps first positions, hence the order. */
  lemma InFirstOrderAppend<T>(fo: seq<T>, ks: seq<T>, x: T)
    requires InFirstOrder(fo, ks)
    ensures InFirstOrder(fo, ks + [x])
  {
    forall k | k in ks ensures FirstPos(ks + [x], k) == FirstPos(ks, k) {
      FirstPosAppend(ks, x, k);
    }
  }

  /** An element new to `ks` goes after everything drawn from `ks`. */
  lemma InFirstOrderNew<T>(fo: seq<T>, ks: seq<T>, x: T)
    requires InFirstOrder(fo, ks + [x]) && (forall k :: k in fo ==> k in ks) && x !in ks
    ensures InFirstOrder(fo + [x], ks + [x])
  {
    FirstPosLast(ks, x);
    var r := fo + [x];
    forall i, j | 0 <= i < j < |r| ensures FirstPos(ks + [x], r[i]) < FirstPos(ks + [x], r[j]) {
      assert r[i] == fo[i] && fo[i] in ks;
      FirstPosAppend(ks, x, fo[i]);
      if j < |fo| {
        assert r[j] == fo[j];
      }
    }
  }

  /** `FirstOccurrences` orders its elements by where each first occurs in `ks`. */
  lemma {:induction false} FirstOccurrencesOrdered<T>(ks: seq<T>)
    ensures InFirstOrder(FirstOccurrences(ks), ks)
  {
    if ks != [] {
      var pre, x := ks[..|ks| - 1], ks[|ks| - 1];
      assert ks == pre + [x];
      FirstOccurrencesOrdered(pre);
      FirstOccurrencesMembers(pre);
      InFirstOrderAppend(FirstOccurrences(pre), pre, x);
      if x !in FirstOccurrences(pre) {
        InFirstOrderNew(FirstOccurrences(pre), pre, x);
      }
    }
  }

  /**
   * `FirstOccurrences` holds every element of `ks` exactly once, ordered by where each
   * element first occurs.
   */
  lemma FirstOccurrencesSpec<T>(ks: seq<T>)
    ensures forall k :: k in FirstOccurrences(ks) <==> k in ks
    ensures Distinct(FirstOccurrences(ks))
    ensures forall i, j :: 0 <= i < j < |FirstOccurrences(ks)| ==>
      FirstPos(ks, FirstOccurrences(ks)[i]) < FirstPos(ks, FirstOccurrences(ks)[j])
  {
    FirstOccurrencesMembers(ks);
    FirstOccurrencesDistinct(ks);
    FirstOccurrencesOrdered(ks);
  }
}
