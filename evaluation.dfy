/**
 * `makeEvaluationItems` (frontend/src/store.js:560-589): one multiple-choice item per card
 * of the run. The item's options are the card's own explanation and up to `nOptions - 1`
 * explanations of other cards of the run, in random order.
 *
 * The store's `newId()` becomes a counter: a call takes the ids `next`, `next + 1`, ... and
 * hands back the first unused one. `Math.random()` becomes the stream of draws of module
 * Random.
 */
module Evaluation {
  import opened Wrappers
  import opened Domain
  import Random

  /** Where an option comes from: the item's own card (`"card"`) or another card (`"cross"`). */
  datatype Origin = OwnCard | Cross

  datatype Choice = Choice(id: Id, text: string, source: Origin, fromCardId: Id)

  /** `answerIndex` is -1 when the options do not hold the card's own explanation. */
  datatype Item = Item(id: Id, cardId: Id, stem: string, options: seq<Choice>, answerIndex: int, lectureId: Id)

  /** `cardIds.map((id) => cardsById[id]).filter(Boolean)`: the cards that exist, in order. */
  function Present(cardIds: seq<Id>, cards: map<Id, Card>): (r: seq<Card>)
    ensures |r| <= |cardIds|
  {
    if cardIds == [] then []
    else
      var last := cardIds[|cardIds| - 1];
      Present(cardIds[..|cardIds| - 1], cards) + (if last in cards then [cards[last]] else [])
  }

  /** A card is present exactly when one of the ids names it. */
  lemma {:induction false} PresentMembers(cardIds: seq<Id>, cards: map<Id, Card>, c: Card)
    ensures c in Present(cardIds, cards) <==> exists i :: 0 <= i < |cardIds| && cardIds[i] in cards && cards[cardIds[i]] == c
  {
    if cardIds != [] {
      var pre := cardIds[..|cardIds| - 1];
      PresentMembers(pre, cards, c);
      if c in Present(pre, cards) {
        var i :| 0 <= i < |pre| && pre[i] in cards && cards[pre[i]] == c;
        assert cardIds[i] == pre[i];
      }
      if exists i :: 0 <= i < |cardIds| && cardIds[i] in cards && cards[cardIds[i]] == c {
        var i :| 0 <= i < |cardIds| && cardIds[i] in cards && cards[cardIds[i]] == c;
        if i < |pre| {
          assert pre[i] == cardIds[i];
        }
      }
    }
  }

  /** When every id names a card, nothing is dropped and the order is kept. */
  lemma {:induction false} PresentAll(cardIds: seq<Id>, cards: map<Id, Card>)
    requires forall id :: id in cardIds ==> id in cards
    ensures |Present(cardIds, cards)| == |cardIds|
    ensures forall i :: 0 <= i < |cardIds| ==> Present(cardIds, cards)[i] == cards[cardIds[i]]
  {
    if cardIds != [] {
      var pre := cardIds[..|cardIds| - 1];
      assert forall id :: id in pre ==> id in cardIds;
      PresentAll(pre, cards);
    }
  }

  /** `pool.filter((x) => x.id !== c.id)` */
  function Others(pool: seq<Card>, id: Id): (r: seq<Card>)
    ensures |r| <= |pool|
    ensures forall x :: x in r <==> x in pool && x.id != id
  {
    if pool == [] then []
    else Others(pool[..|pool| - 1], id) + (if pool[|pool| - 1].id != id then [pool[|pool| - 1]] else [])
  }

  /** The number of cards `Others` drops is the number with the id. */
  lemma {:induction false} OthersCount(pool: seq<Card>, id: Id)
    ensures |Others(pool, id)| == |pool| - CountId(pool, id)
  {
    if pool != [] {
      OthersCount(pool[..|pool| - 1], id);
    }
  }

  function CountId(pool: seq<Card>, id: Id): (n: nat)
    ensures n <= |pool|
  {
    if pool == [] then 0
    else CountId(pool[..|pool| - 1], id) + (if pool[|pool| - 1].id == id then 1 else 0)
  }

  /** JavaScript's `s.slice(0, n)`: a negative `n` counts from the end. */
  function SliceTo<T>(s: seq<T>, n: int): (r: seq<T>)
    ensures |r| <= |s| && r == s[..|r|]
    ensures n >= 0 ==> |r| == Min(n, |s|)
    ensures n < 0 ==> |r| == Max(|s| + n, 0)
  {
    if n >= 0 then s[..Min(n, |s|)] else s[..Max(|s| + n, 0)]
  }

  /** `options.findIndex((o) => o.fromCardId === id)` */
  function FindIndex(options: seq<Choice>, id: Id): (r: int)
    ensures -1 <= r < |options|
    ensures r >= 0 ==> options[r].fromCardId == id
    ensures forall j :: 0 <= j < |options| && (r == -1 || j < r) ==> options[j].fromCardId != id
  {
    if options == [] then -1
    else if options[0].fromCardId == id then 0
    else
      var k := FindIndex(options[1..], id);
      assert forall j :: 1 <= j < |options| ==> options[j] == options[1..][j - 1];
      if k == -1 then -1 else k + 1
  }

  /** The options of a sequence carry pairwise different ids. */
  ghost predicate DistinctIds(cs: seq<Choice>) {
    forall j, k :: 0 <= j < k < |cs| ==> cs[j].id != cs[k].id
  }

  /** Reordering a sequence keeps its ids pairwise different. */
  lemma PermutationDistinctIds(s: seq<Choice>, r: seq<Choice>)
    requires DistinctIds(s) && multiset(r) == multiset(s)
    ensures DistinctIds(r)
  {
    forall j, k | 0 <= j < k < |r| ensures r[j].id != r[k].id {
      if r[j].id == r[k].id {
        assert r[j] in multiset(s) && r[k] in multiset(s);
        var p :| 0 <= p < |s| && s[p] == r[j];
        var q :| 0 <= q < |s| && s[q] == r[k];
        assert p == q;
        SameTwice(r, j, k);
        SingleOccurrence(s, p);
      }
    }
  }

  /** An element at two positions occurs at least twice. */
  lemma SameTwice<T>(r: seq<T>, j: nat, k: nat)
    requires j < k < |r| && r[j] == r[k]
    ensures multiset(r)[r[j]] >= 2
  {
    var x := r[j];
    assert r == r[..j] + [x] + r[j + 1..k] + [x] + r[k + 1..];
    assert multiset(r) == multiset(r[..j]) + multiset{x} + multiset(r[j + 1..k]) + multiset{x} + multiset(r[k + 1..]);
  }

  /** In a sequence with pairwise different ids every element occurs once. */
  lemma SingleOccurrence(s: seq<Choice>, p: nat)
    requires DistinctIds(s) && p < |s|
    ensures multiset(s)[s[p]] == 1
  {
    var x := s[p];
    assert s == s[..p] + [x] + s[p + 1..];
    assert multiset(s) == multiset(s[..p]) + multiset{x} + multiset(s[p + 1..]);
  }

  /**
   * The distractor loop: the first `nOptions - 1` cards of the shuffled pool, each as a
   * `"cross"` option with its own new id.
   */
  method Distractors(shuffled: seq<Card>, nOptions: int, next: nat) returns (ds: seq<Choice>, after: nat)
    ensures |ds| == Min(Max(nOptions - 1, 0), |shuffled|)
    ensures forall i :: 0 <= i < |ds| ==> ds[i] == Choice(next + i, shuffled[i].explanation, Cross, shuffled[i].id)
    ensures after == next + |ds|
  {
    ds := [];
    after := next;
    var i := 0;
    while i < |shuffled|
      invariant 0 <= i <= |shuffled| && |ds| == i && after == next + i
      invariant i <= Max(nOptions - 1, 0)
      invariant forall j :: 0 <= j < i ==> ds[j] == Choice(next + j, shuffled[j].explanation, Cross, shuffled[j].id)
    {
      if |ds| >= nOptions - 1 {
        break;
      }
      ds := ds + [Choice(after, shuffled[i].explanation, Cross, shuffled[i].id)];
      after := after + 1;
      i := i + 1;
    }
  }

  /** The item's own ids: its id is `hi - 1`, and its options carry distinct ids from `[lo, hi - 1)`. */
  ghost predicate ItemIds(item: Item, lo: nat, hi: nat) {
    && item.id + 1 == hi
    && (forall o :: o in item.options ==> lo <= o.id < item.id)
    && DistinctIds(item.options)
  }

  /**
   * What the item for card `c` drawn from `pool` holds: its stem, card and lecture are the
   * card's; for `nOptions <= 0` it has no options and no answer; otherwise it has the card's
   * own option at `answerIndex` and `min(nOptions - 1, |others|)` options from the other
   * cards of the pool, none of them naming the card.
   */
  ghost predicate ItemAsks(item: Item, c: Card, pool: seq<Card>, nOptions: int) {
    && item.cardId == c.id && item.stem == c.term && item.lectureId == c.lectureId
    && (nOptions <= 0 ==> item.options == [] && item.answerIndex == -1)
    && (nOptions >= 1 ==>
          && |item.options| == 1 + Min(nOptions - 1, |Others(pool, c.id)|)
          && 0 <= item.answerIndex < |item.options|
          && item.options[item.answerIndex] == Choice(item.options[item.answerIndex].id, c.explanation, OwnCard, c.id)
          && (forall j :: 0 <= j < |item.options| && j != item.answerIndex ==> CrossOption(item.options[j], c, pool)))
  }

  /** A distractor: the explanation of a card of the pool other than `c`. */
  ghost predicate CrossOption(o: Choice, c: Card, pool: seq<Card>) {
    && o.source == Cross && o.fromCardId != c.id
    && exists x :: x in pool && x.id == o.fromCardId && x.explanation == o.text
  }

  ghost predicate ItemFor(item: Item, c: Card, pool: seq<Card>, nOptions: int, lo: nat, hi: nat) {
    ItemIds(item, lo, hi) && ItemAsks(item, c, pool, nOptions)
  }

  /** The options drawn from the card's own option and the distractors carry distinct ids in range. */
  lemma OptionIds(own: Choice, ds: seq<Choice>, next: nat, mixed: seq<Choice>, nOptions: int)
    requires forall i :: 0 <= i < |ds| ==> ds[i].id == next + i
    requires own.id == next + |ds|
    requires multiset(mixed) == multiset([own] + ds)
    ensures forall o :: o in SliceTo(mixed, nOptions) ==> next <= o.id <= next + |ds|
    ensures DistinctIds(SliceTo(mixed, nOptions))
  {
    var all := [own] + ds;
    assert forall j :: 1 <= j < |all| ==> all[j] == ds[j - 1];
    assert DistinctIds(all);
    PermutationDistinctIds(all, mixed);
    var options := SliceTo(mixed, nOptions);
    forall o | o in options ensures next <= o.id <= next + |ds| {
      assert o in mixed;
      assert o in multiset(all);
    }
  }

  /** The distractors come from the other cards of the pool. */
  lemma DistractorsCross(c: Card, pool: seq<Card>, shuffled: seq<Card>, ds: seq<Choice>, next: nat)
    requires multiset(shuffled) == multiset(Others(pool, c.id))
    requires |ds| <= |shuffled|
    requires forall i :: 0 <= i < |ds| ==> ds[i] == Choice(next + i, shuffled[i].explanation, Cross, shuffled[i].id)
    ensures forall d :: d in ds ==> CrossOption(d, c, pool)
  {
    forall d | d in ds ensures CrossOption(d, c, pool) {
      var i :| 0 <= i < |ds| && ds[i] == d;
      assert shuffled[i] in multiset(Others(pool, c.id));
    }
  }

  /** The card's own option is where `findIndex` finds it, and every other option is a distractor. */
  lemma OptionAnswer(c: Card, pool: seq<Card>, own: Choice, ds: seq<Choice>, mixed: seq<Choice>, nOptions: int)
    requires own == Choice(own.id, c.explanation, OwnCard, c.id)
    requires forall d :: d in ds ==> CrossOption(d, c, pool)
    requires |ds| <= Max(nOptions - 1, 0)
    requires |mixed| == 1 + |ds| && multiset(mixed) == multiset([own] + ds)
    ensures var options := SliceTo(mixed, nOptions); var r := FindIndex(options, c.id);
      && (nOptions <= 0 ==> options == [] && r == -1)
      && (nOptions >= 1 ==>
            && |options| == 1 + |ds|
            && 0 <= r < |options| && options[r] == own
            && forall j :: 0 <= j < |options| && j != r ==> CrossOption(options[j], c, pool))
  {
    var options := SliceTo(mixed, nOptions);
    forall j | 0 <= j < |options| ensures options[j] == own || options[j] in ds {
      assert options[j] in multiset([own] + ds);
    }
    if nOptions >= 1 {
      assert options == mixed;
      assert own in multiset(mixed);
      var r := FindIndex(options, c.id);
      assert r != -1;
      assert own !in ds;
      assert multiset([own] + ds)[own] == 1 by {
        assert multiset([own] + ds) == multiset{own} + multiset(ds);
      }
      forall j | 0 <= j < |options| && j != r ensures CrossOption(options[j], c, pool) {
        if r < j && options[j] == own {
          SameTwice(options, r, j);
        }
      }
    }
  }

  /** One element of `cards.map(...)`: the item for card `c`. */
  method MakeItem(c: Card, pool: seq<Card>, nOptions: int, next: nat, rnd: seq<nat>)
    returns (item: Item, after: nat, rest: seq<nat>)
    ensures next < after && ItemFor(item, c, pool, nOptions, next, after)
  {
    var others := Others(pool, c.id);
    var shuffled, rnd1 := Random.Shuffle(others, rnd);
    var ds, n1 := Distractors(shuffled, nOptions, next);
    var own := Choice(n1, c.explanation, OwnCard, c.id);
    var mixed, rnd2 := Random.Shuffle([own] + ds, rnd1);
    var options := SliceTo(mixed, nOptions);
    var answer := FindIndex(options, c.id);
    item := Item(n1 + 1, c.id, c.term, options, answer, c.lectureId);
    after := n1 + 2;
    rest := rnd2;
    OptionIds(own, ds, next, mixed, nOptions);
    DistractorsCross(c, pool, shuffled, ds, next);
    OptionAnswer(c, pool, own, ds, mixed, nOptions);
  }

  /**
   * Along a run, each item's ids lie above the previous item's and below its own: every id
   * of the run is distinct and lies in `[next, after)`.
   */
  ghost predicate IdsAscend(items: seq<Item>, next: nat, after: nat) {
    && (forall i :: 0 <= i < |items| ==> next <= items[i].id < after)
    && (forall i :: 0 < i < |items| ==> forall o :: o in items[i].options ==> items[i - 1].id < o.id)
    && (forall i, j :: 0 <= i < j < |items| ==> items[i].id < items[j].id)
  }

  /** The first id item `k` of a run may use. */
  function Lo(items: seq<Item>, next: nat, k: nat): nat
    requires k < |items|
  {
    if k == 0 then next else items[k - 1].id + 1
  }

  /**
   * The items of a run over `pool`: item `k` is the item for card `k` of the pool, and the
   * ids of the run ascend from `next` up to `after`.
   */
  ghost predicate RunItems(items: seq<Item>, pool: seq<Card>, nOptions: int, next: nat, after: nat) {
    && |items| <= |pool|
    && next <= after
    && IdsAscend(items, next, after)
    && (|items| > 0 ==> after == items[|items| - 1].id + 1)
    && (forall k :: 0 <= k < |items| ==> ItemFor(items[k], pool[k], pool, nOptions, Lo(items, next, k), items[k].id + 1))
  }

  /** Appending the item for the next card of the pool extends the run. */
  lemma RunSnoc(items: seq<Item>, pool: seq<Card>, nOptions: int, next: nat, after: nat, item: Item, hi: nat)
    requires RunItems(items, pool, nOptions, next, after) && |items| < |pool|
    requires after < hi && ItemFor(item, pool[|items|], pool, nOptions, after, hi)
    ensures RunItems(items + [item], pool, nOptions, next, hi)
  {
    RunSnocIds(items, next, after, item, hi);
    RunSnocItems(items, pool, nOptions, next, item);
  }

  lemma RunSnocIds(items: seq<Item>, next: nat, after: nat, item: Item, hi: nat)
    requires next <= after && IdsAscend(items, next, after)
    requires |items| > 0 ==> after == items[|items| - 1].id + 1
    requires after < hi && ItemIds(item, after, hi)
    ensures IdsAscend(items + [item], next, hi)
  {
    var r := items + [item];
    assert forall k :: 0 <= k < |items| ==> r[k] == items[k];
    forall i | 0 < i < |r| ensures forall o :: o in r[i].options ==> r[i - 1].id < o.id {
      if i < |items| {
        assert r[i - 1] == items[i - 1];
      }
    }
  }

  lemma RunSnocItems(items: seq<Item>, pool: seq<Card>, nOptions: int, next: nat, item: Item)
    requires |items| < |pool|
    requires forall k :: 0 <= k < |items| ==> ItemFor(items[k], pool[k], pool, nOptions, Lo(items, next, k), items[k].id + 1)
    requires ItemFor(item, pool[|items|], pool, nOptions, Lo(items + [item], next, |items|), item.id + 1)
    ensures forall k :: 0 <= k < |items| + 1 ==>
      ItemFor((items + [item])[k], pool[k], pool, nOptions, Lo(items + [item], next, k), (items + [item])[k].id + 1)
  {
    var r := items + [item];
    forall k | 0 <= k < |r|
      ensures ItemFor(r[k], pool[k], pool, nOptions, Lo(r, next, k), r[k].id + 1)
    {
      if k < |items| {
        assert r[k] == items[k];
        assert Lo(r, next, k) == Lo(items, next, k);
      }
    }
  }

  /**
   * `makeEvaluationItems`: one item per present card, in order, each as `ItemFor` says,
   * with the ids of the whole run ascending from `next` and below `after`.
   */
  method MakeEvaluationItems(cardIds: seq<Id>, cards: map<Id, Card>, nOptions: int, next: nat, rnd: seq<nat>)
    returns (items: seq<Item>, after: nat, rest: seq<nat>)
    ensures |items| == |Present(cardIds, cards)|
    ensures RunItems(items, Present(cardIds, cards), nOptions, next, after)
  {
    var pool := Present(cardIds, cards);
    items := [];
    after := next;
    rest := rnd;
    for i := 0 to |pool|
      invariant |items| == i
      invariant RunItems(items, pool, nOptions, next, after)
    {
      var item, n, r := MakeItem(pool[i], pool, nOptions, after, rest);
      RunSnoc(items, pool, nOptions, next, after, item, n);
      items := items + [item];
      after := n;
      rest := r;
    }
  }
}
