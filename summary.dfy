/**
 * The results views of an evaluation run: `SummaryPanel` (frontend/src/components/SummaryPanel.jsx)
 * and its older twin `EvalSummary` (frontend/src/App.jsx:966-985). Both count every item
 * under its lecture, in the order the lectures first appear among the items, then count the
 * correct responses under the lecture of their item. The panel also lists one row per
 * response and splits the rows into wrong and right.
 */
module Summary {
  import opened Wrappers
  import opened Keyed
  import opened Domain
  import opened Evaluation
  import opened Records

  // ---------------------------------------------------------------- rows and totals

  /** One line of the panel's table of answers. */
  datatype SummaryRow = SummaryRow(
    id: Id, term: string, lectureTitle: string, chosenText: string, correctText: string, isCorrect: bool)

  datatype Totals = Totals(correct: nat, total: nat)

  /** `itemsById`: `m.set(it.id, it)` for every item in turn, so a later item wins. */
  function ItemsById(items: seq<Item>): (m: map<Id, Item>)
    ensures forall k :: k in m ==> m[k] in items && m[k].id == k
  {
    if items == [] then map[]
    else ItemsById(items[..|items| - 1])[items[|items| - 1].id := items[|items| - 1]]
  }

  /** Every item's id is a key of `itemsById`. */
  lemma {:induction false} ItemsByIdKeys(items: seq<Item>)
    ensures forall k :: k in ItemsById(items) <==> exists i :: 0 <= i < |items| && items[i].id == k
  {
    if items != [] {
      var pre := items[..|items| - 1];
      ItemsByIdKeys(pre);
      forall k | k in ItemsById(items) ensures exists i :: 0 <= i < |items| && items[i].id == k {
        if k != items[|items| - 1].id {
          var i :| 0 <= i < |pre| && pre[i].id == k;
          assert items[i] == pre[i];
        }
      }
    }
  }

  /** No item after position `j` carries the id of item `j`. */
  predicate LastWithId(items: seq<Item>, j: nat)
    requires j < |items|
  {
    forall j' :: j < j' < |items| ==> items[j'].id != items[j].id
  }

  /** A later item wins: each key holds the last item carrying that id. */
  lemma {:induction false} ItemsByIdLast(items: seq<Item>)
    ensures forall k :: k in ItemsById(items) ==>
      exists j :: 0 <= j < |items| && items[j] == ItemsById(items)[k] && LastWithId(items, j)
  {
    if items != [] {
      var pre := items[..|items| - 1];
      var n := |items| - 1;
      ItemsByIdLast(pre);
      forall k | k in ItemsById(items)
        ensures exists j :: 0 <= j < |items| && items[j] == ItemsById(items)[k] && LastWithId(items, j)
      {
        if k == items[n].id {
          assert items[n] == ItemsById(items)[k] && LastWithId(items, n);
        } else {
          var j :| 0 <= j < |pre| && pre[j] == ItemsById(pre)[k] && LastWithId(pre, j);
          assert items[j] == pre[j];
          forall j' | j < j' < |items| ensures items[j'].id != items[j].id {
            if j' < n {
              assert items[j'] == pre[j'];
            }
          }
        }
      }
    }
  }

  /** `options[i]?.text ?? ""`: the option's text, or the empty string when `i` is out of range. */
  function OptionText(options: seq<Choice>, i: int): string {
    if 0 <= i < |options| then options[i].text else ""
  }

  /** `lec?.title || "Untitled lecture"` */
  function LectureTitle(lectures: map<Id, Lecture>, lectureId: Id): string {
    if lectureId in lectures && lectures[lectureId].title != [] then lectures[lectureId].title else "Untitled lecture"
  }

  /** Every response names an item of the run; the panel dereferences the item otherwise. */
  predicate Answerable(items: seq<Item>, responses: seq<Response>) {
    forall i :: 0 <= i < |responses| ==> responses[i].itemId in ItemsById(items)
  }

  function RowOf(byId: map<Id, Item>, lectures: map<Id, Lecture>, r: Response): SummaryRow
    requires r.itemId in byId
  {
    var it := byId[r.itemId];
    SummaryRow(it.id, it.stem, LectureTitle(lectures, it.lectureId), OptionText(it.options, r.chosenIndex),
               OptionText(it.options, it.answerIndex), r.correct)
  }

  /** SummaryPanel.jsx:16-31: one row per response, in response order. */
  function Rows(items: seq<Item>, lectures: map<Id, Lecture>, responses: seq<Response>): (rows: seq<SummaryRow>)
    requires Answerable(items, responses)
    ensures |rows| == |responses|
  {
    var byId := ItemsById(items);
    seq(|responses|, i requires 0 <= i < |responses| => RowOf(byId, lectures, responses[i]))
  }

  /**
   * Row `i` is about the item response `i` names: its id and stem, the text of the chosen
   * option (empty when the index is out of range) and the response's own verdict.
   */
  lemma RowsSpec(items: seq<Item>, lectures: map<Id, Lecture>, responses: seq<Response>, i: nat)
    requires Answerable(items, responses) && i < |responses|
    ensures var row := Rows(items, lectures, responses)[i];
      && row.id == responses[i].itemId
      && row.isCorrect == responses[i].correct
      && exists it :: it in items && it.id == row.id && row.term == it.stem
           && row.chosenText == (if 0 <= responses[i].chosenIndex < |it.options| then it.options[responses[i].chosenIndex].text else "")
           && row.correctText == OptionText(it.options, it.answerIndex)
           && row.lectureTitle == LectureTitle(lectures, it.lectureId)
  {
    var it := ItemsById(items)[responses[i].itemId];
    assert it in items;
  }

  /** `rows.filter((x) => x.isCorrect === want)`: `right` for `true`, `wrong` for `false`. */
  function Keep(rows: seq<SummaryRow>, want: bool): (r: seq<SummaryRow>)
    ensures |r| <= |rows|
    ensures forall x :: x in r ==> x in rows && x.isCorrect == want
  {
    if rows == [] then []
    else Keep(rows[..|rows| - 1], want) + (if rows[|rows| - 1].isCorrect == want then [rows[|rows| - 1]] else [])
  }

  /** SummaryPanel.jsx:59-60: `wrong` and `right` split the rows, each row going to exactly one side. */
  lemma {:induction false} WrongRightPartition(rows: seq<SummaryRow>)
    ensures multiset(Keep(rows, false)) + multiset(Keep(rows, true)) == multiset(rows)
  {
    if rows != [] {
      var pre, x := rows[..|rows| - 1], rows[|rows| - 1];
      WrongRightPartition(pre);
      assert rows == pre + [x];
      assert multiset(rows) == multiset(pre) + multiset{x};
    }
  }

  /** Every row is counted once, as wrong or as right. */
  lemma WrongRightSizes(rows: seq<SummaryRow>)
    ensures |Keep(rows, false)| + |Keep(rows, true)| == |rows|
  {
    WrongRightPartition(rows);
    assert |multiset(Keep(rows, false)) + multiset(Keep(rows, true))| == |multiset(rows)|;
  }

  /** The number of responses marked correct: `responses.filter((r) => r.correct).length`. */
  function CountCorrect(responses: seq<Response>): (n: nat)
    ensures n <= |responses|
  {
    if responses == [] then 0
    else CountCorrect(responses[..|responses| - 1]) + (if responses[|responses| - 1].correct then 1 else 0)
  }

  /** The count is the number of positions holding a correct response. */
  lemma {:induction false} CountCorrectPositions(responses: seq<Response>)
    ensures CountCorrect(responses) == |set i | 0 <= i < |responses| && responses[i].correct|
  {
    if responses != [] {
      var n := |responses| - 1;
      var pre := responses[..n];
      CountCorrectPositions(pre);
      var before := set i | 0 <= i < n && pre[i].correct;
      var after := set i | 0 <= i < |responses| && responses[i].correct;
      assert before == set i | 0 <= i < n && responses[i].correct;
      if responses[n].correct {
        assert after == before + {n};
      } else {
        assert after == before;
      }
    }
  }

  /** SummaryPanel.jsx:34-37 */
  function PanelTotals(items: seq<Item>, lectures: map<Id, Lecture>, responses: seq<Response>): Totals
    requires Answerable(items, responses)
  {
    Totals(|Keep(Rows(items, lectures, responses), true)|, |items|)
  }

  /** The right rows are the correct responses, so the panel's score is the count of correct responses over the items. */
  lemma {:induction false} PanelTotalsSpec(items: seq<Item>, lectures: map<Id, Lecture>, responses: seq<Response>)
    requires Answerable(items, responses)
    ensures PanelTotals(items, lectures, responses) == Totals(CountCorrect(responses), |items|)
  {
    KeepCounts(items, lectures, responses);
  }

  lemma {:induction false} KeepCounts(items: seq<Item>, lectures: map<Id, Lecture>, responses: seq<Response>)
    requires Answerable(items, responses)
    ensures |Keep(Rows(items, lectures, responses), true)| == CountCorrect(responses)
  {
    if responses != [] {
      var n := |responses| - 1;
      var pre := responses[..n];
      var rows := Rows(items, lectures, responses);
      assert Answerable(items, pre) by {
        forall i | 0 <= i < |pre| ensures pre[i].itemId in ItemsById(items) {
          assert pre[i] == responses[i];
        }
      }
      KeepCounts(items, lectures, pre);
      assert rows[..n] == Rows(items, lectures, pre);
      assert rows[n].isCorrect == responses[n].correct;
    }
  }

  /** App.jsx:982-985: the same score, counted on the responses directly. */
  function EvalTotals(items: seq<Item>, responses: seq<Response>): (t: Totals)
    ensures t.correct <= |responses|
  {
    Totals(CountCorrect(responses), |items|)
  }

  /**
   * The score line's `Math.round((correct / Math.max(1, total)) * 100)`, in exact arithmetic:
   * `Math.round(x)` is the floor of `x + 1/2`.
   */
  function ScorePercent(t: Totals): (p: nat)
    ensures var d := if t.total < 1 then 1 else t.total;
      200 * t.correct < 2 * d * p + d && 2 * d * p <= 200 * t.correct + d
    ensures t.correct <= t.total ==> p <= 100
  {
    var d := if t.total < 1 then 1 else t.total;
    RoundedBounds(t.correct, d);
    (200 * t.correct + d) / (2 * d)
  }

  lemma RoundedBounds(c: nat, d: nat)
    requires d >= 1
    ensures var p := (200 * c + d) / (2 * d);
      200 * c < 2 * d * p + d && 2 * d * p <= 200 * c + d && (c <= d ==> p <= 100)
  {
    var a, b := 200 * c + d, 2 * d;
    var p, r := a / b, a % b;
    assert a == b * p + r && 0 <= r < b;
    if c <= d && p > 100 {
      assert b * p >= b * 101 by { MulMono(b, 101, p); }
      assert false;
    }
  }

  lemma MulMono(b: nat, x: nat, y: nat)
    requires x <= y
    ensures b * x <= b * y
  {
    assert b * y == b * x + b * (y - x);
  }

  // ---------------------------------------------------------------- per-lecture tallies

  /** `{ title, total, correct }` of one lecture. */
  datatype Tally = Tally(title: string, total: nat, correct: nat)

  /** The `Map` of tallies: keys in insertion order, as `[...map.values()]` lists them. */
  datatype Tallies = Tallies(order: seq<Id>, byId: map<Id, Tally>)

  ghost predicate KeysInOrder(t: Tallies) {
    forall k :: k in t.byId <==> k in t.order
  }

  /** `[...map.values()]` */
  function TallyList(t: Tallies): (r: seq<Tally>)
    requires forall i :: 0 <= i < |t.order| ==> t.order[i] in t.byId
    ensures |r| == |t.order| && forall i :: 0 <= i < |r| ==> r[i] == t.byId[t.order[i]]
  {
    seq(|t.order|, i requires 0 <= i < |t.order| => t.byId[t.order[i]])
  }

  /** The key the tally of an item goes under: its lecture's own `id`, for an item whose lecture exists. */
  function LectureKeys(items: seq<Item>, lectures: map<Id, Lecture>): seq<Id> {
    if items == [] then []
    else
      var it := items[|items| - 1];
      LectureKeys(items[..|items| - 1], lectures) + (if it.lectureId in lectures then [lectures[it.lectureId].id] else [])
  }

  /** SummaryPanel.jsx:42-48 (App.jsx:969-976), one item: a first item of a lecture opens its tally; the total goes up. */
  function AddItem(t: Tallies, lectures: map<Id, Lecture>, it: Item): Tallies {
    if it.lectureId !in lectures then t
    else
      var lec := lectures[it.lectureId];
      if lec.id in t.byId then t.(byId := t.byId[lec.id := t.byId[lec.id].(total := t.byId[lec.id].total + 1)])
      else Tallies(t.order + [lec.id], t.byId[lec.id := Tally(lec.title, 1, 0)])
  }

  function ItemTallies(items: seq<Item>, lectures: map<Id, Lecture>): Tallies {
    if items == [] then Tallies([], map[]) else AddItem(ItemTallies(items[..|items| - 1], lectures), lectures, items[|items| - 1])
  }

  /** The items pass keeps a tally for exactly the lecture keys, each total counting the items under its key. */
  lemma {:induction false} ItemTalliesCounts(items: seq<Item>, lectures: map<Id, Lecture>)
    ensures var t := ItemTallies(items, lectures); var ks := LectureKeys(items, lectures);
      forall k :: (k in t.byId <==> k in ks) && (k in t.byId ==> t.byId[k].total == multiset(ks)[k] && t.byId[k].correct == 0)
  {
    if items != [] {
      var pre, it := items[..|items| - 1], items[|items| - 1];
      ItemTalliesCounts(pre, lectures);
      if it.lectureId in lectures {
        var ks0, k := LectureKeys(pre, lectures), lectures[it.lectureId].id;
        assert LectureKeys(items, lectures) == ks0 + [k];
        assert multiset(ks0 + [k]) == multiset(ks0) + multiset{k};
      } else {
        assert LectureKeys(items, lectures) == LectureKeys(pre, lectures);
      }
    }
  }

  /** The tallies are opened in the order their keys first occur among the items. */
  lemma {:induction false} ItemTalliesOrder(items: seq<Item>, lectures: map<Id, Lecture>)
    ensures var t := ItemTallies(items, lectures); t.order == FirstOccurrences(LectureKeys(items, lectures))
  {
    if items != [] {
      var pre, it := items[..|items| - 1], items[|items| - 1];
      ItemTalliesOrder(pre, lectures);
      if it.lectureId in lectures {
        var ks0, k := LectureKeys(pre, lectures), lectures[it.lectureId].id;
        var ks := ks0 + [k];
        assert LectureKeys(items, lectures) == ks;
        assert ks[..|ks| - 1] == ks0;
        ItemTalliesCounts(pre, lectures);
        FirstOccurrencesMembers(ks0);
      } else {
        assert LectureKeys(items, lectures) == LectureKeys(pre, lectures);
      }
    }
  }

  /**
   * The items pass opens one tally per lecture key, in the order the keys first occur, and
   * each tally's total counts the items under its key; no response is counted yet.
   */
  lemma ItemTalliesSpec(items: seq<Item>, lectures: map<Id, Lecture>)
    ensures var t := ItemTallies(items, lectures);
      && t.order == FirstOccurrences(LectureKeys(items, lectures))
      && KeysInOrder(t)
      && forall k :: k in t.byId ==> t.byId[k].total == multiset(LectureKeys(items, lectures))[k] && t.byId[k].correct == 0
  {
    ItemTalliesCounts(items, lectures);
    ItemTalliesOrder(items, lectures);
    FirstOccurrencesMembers(LectureKeys(items, lectures));
  }

  /** The keys of the correct responses whose item's lecture exists, in response order. */
  function CorrectKeys(byId: map<Id, Item>, lectures: map<Id, Lecture>, responses: seq<Response>): seq<Id>
    requires forall i :: 0 <= i < |responses| ==> responses[i].itemId in byId
  {
    if responses == [] then []
    else
      var r := responses[|responses| - 1];
      var it := byId[r.itemId];
      CorrectKeys(byId, lectures, responses[..|responses| - 1]) +
        (if r.correct && it.lectureId in lectures then [lectures[it.lectureId].id] else [])
  }

  /** A correct response adds one to the tally under `k`. */
  function Bump(t: Tallies, k: Id): Tallies
    requires k in t.byId
  {
    t.(byId := t.byId[k := t.byId[k].(correct := t.byId[k].correct + 1)])
  }

  /**
   * SummaryPanel.jsx:49-55, one response: a correct answer to an item whose lecture exists
   * adds one to that lecture's tally (the tally is always there: see `PanelTalliesSpec`).
   */
  function AddResponse(t: Tallies, byId: map<Id, Item>, lectures: map<Id, Lecture>, r: Response): Tallies
    requires r.itemId in byId
  {
    var it := byId[r.itemId];
    if r.correct && it.lectureId in lectures && lectures[it.lectureId].id in t.byId then Bump(t, lectures[it.lectureId].id)
    else t
  }

  function ResponseTallies(t: Tallies, byId: map<Id, Item>, lectures: map<Id, Lecture>, responses: seq<Response>): (u: Tallies)
    requires forall i :: 0 <= i < |responses| ==> responses[i].itemId in byId
    ensures u.order == t.order && u.byId.Keys == t.byId.Keys
  {
    if responses == [] then t
    else AddResponse(ResponseTallies(t, byId, lectures, responses[..|responses| - 1]), byId, lectures, responses[|responses| - 1])
  }

  /** One response adds one under the key of its lecture when it is correct, and changes no other tally. */
  lemma AddResponseSpec(t: Tallies, byId: map<Id, Item>, lectures: map<Id, Lecture>, r: Response)
    requires r.itemId in byId
    requires var it := byId[r.itemId]; it.lectureId in lectures ==> lectures[it.lectureId].id in t.byId
    ensures var it := byId[r.itemId]; var u := AddResponse(t, byId, lectures, r);
      forall k :: k in t.byId ==>
        u.byId[k] == t.byId[k].(correct := t.byId[k].correct + if r.correct && it.lectureId in lectures && lectures[it.lectureId].id == k then 1 else 0)
  {
  }

  /** The responses pass counts, under each key present, the correct responses with that key and leaves the totals. */
  lemma {:induction false} ResponseTalliesSpec(t: Tallies, byId: map<Id, Item>, lectures: map<Id, Lecture>, responses: seq<Response>)
    requires forall i :: 0 <= i < |responses| ==> responses[i].itemId in byId
    requires forall i :: 0 <= i < |responses| ==> var it := byId[responses[i].itemId];
      it.lectureId in lectures ==> lectures[it.lectureId].id in t.byId
    ensures var u := ResponseTallies(t, byId, lectures, responses);
      forall k :: k in t.byId ==>
        u.byId[k] == t.byId[k].(correct := t.byId[k].correct + multiset(CorrectKeys(byId, lectures, responses))[k])
  {
    if responses != [] {
      var pre, r := responses[..|responses| - 1], responses[|responses| - 1];
      assert forall i :: 0 <= i < |pre| ==> pre[i] == responses[i];
      ResponseTalliesSpec(t, byId, lectures, pre);
      var it := byId[r.itemId];
      var added: seq<Id> := if r.correct && it.lectureId in lectures then [lectures[it.lectureId].id] else [];
      assert CorrectKeys(byId, lectures, responses) == CorrectKeys(byId, lectures, pre) + added;
      assert multiset(CorrectKeys(byId, lectures, responses)) == multiset(CorrectKeys(byId, lectures, pre)) + multiset(added);
      var u0 := ResponseTallies(t, byId, lectures, pre);
      AddResponseSpec(u0, byId, lectures, r);
    }
  }

  /** SummaryPanel.jsx:40-57 */
  function PanelByLecture(items: seq<Item>, lectures: map<Id, Lecture>, responses: seq<Response>): Tallies
    requires Answerable(items, responses)
  {
    ResponseTallies(ItemTallies(items, lectures), ItemsById(items), lectures, responses)
  }

  /** The item `itemsById` holds for a key is an item whose lecture key, if its lecture exists, has a tally. */
  lemma ItemKeyTallied(items: seq<Item>, lectures: map<Id, Lecture>, k: Id)
    requires k in ItemsById(items)
    ensures var it := ItemsById(items)[k];
      it.lectureId in lectures ==> lectures[it.lectureId].id in ItemTallies(items, lectures).byId
  {
    var it := ItemsById(items)[k];
    if it.lectureId in lectures {
      var i :| 0 <= i < |items| && items[i] == it;
      ItemTalliesSpec(items, lectures);
      LectureKeysMember(items, lectures, i);
      FirstOccurrencesMembers(LectureKeys(items, lectures));
    }
  }

  lemma {:induction false} LectureKeysMember(items: seq<Item>, lectures: map<Id, Lecture>, i: nat)
    requires i < |items| && items[i].lectureId in lectures
    ensures lectures[items[i].lectureId].id in LectureKeys(items, lectures)
  {
    if i < |items| - 1 {
      LectureKeysMember(items[..|items| - 1], lectures, i);
    }
  }

  /**
   * SummaryPanel's `byLecture`: one tally per distinct lecture key among the items, in the
   * order the keys first occur, with the lecture's items as the total and the correct
   * responses to them as the correct count.
   */
  lemma PanelTalliesSpec(items: seq<Item>, lectures: map<Id, Lecture>, responses: seq<Response>)
    requires Answerable(items, responses)
    ensures var t := PanelByLecture(items, lectures, responses);
      && t.order == FirstOccurrences(LectureKeys(items, lectures))
      && KeysInOrder(t)
      && forall k :: k in t.byId ==>
           && t.byId[k].total == multiset(LectureKeys(items, lectures))[k]
           && t.byId[k].correct == multiset(CorrectKeys(ItemsById(items), lectures, responses))[k]
  {
    ItemTalliesSpec(items, lectures);
    forall i | 0 <= i < |responses|
      ensures var it := ItemsById(items)[responses[i].itemId];
        it.lectureId in lectures ==> lectures[it.lectureId].id in ItemTallies(items, lectures).byId
    {
      ItemKeyTallied(items, lectures, responses[i].itemId);
    }
    ResponseTalliesSpec(ItemTallies(items, lectures), ItemsById(items), lectures, responses);
  }

  // ---------------------------------------------------------------- EvalSummary of App.jsx

  /**
   * App.jsx:977-981, one response: the item is found by `find` (the first with that id) and
   * its tally looked up under the item's `lectureId`; a correct answer adds one.
   */
  function AddEvalResponse(t: Tallies, items: seq<Item>, r: Response): Tallies
    requires FindItem(items, r.itemId).Some?
    requires r.correct ==> FindItem(items, r.itemId).value.lectureId in t.byId
  {
    if r.correct then Bump(t, FindItem(items, r.itemId).value.lectureId) else t
  }

  /**
   * What `EvalSummary` needs to run: every response names an item, and a correct one names
   * an item whose `lectureId` is a tally key (`agg.correct` throws otherwise).
   */
  predicate EvalSafe(items: seq<Item>, keys: set<Id>, responses: seq<Response>) {
    forall i :: 0 <= i < |responses| ==>
      FindItem(items, responses[i].itemId).Some? &&
      (responses[i].correct ==> FindItem(items, responses[i].itemId).value.lectureId in keys)
  }

  function EvalResponseTallies(t: Tallies, items: seq<Item>, responses: seq<Response>): (u: Tallies)
    requires EvalSafe(items, t.byId.Keys, responses)
    ensures u.order == t.order && u.byId.Keys == t.byId.Keys
  {
    if responses == [] then t
    else
      var pre := responses[..|responses| - 1];
      assert EvalSafe(items, t.byId.Keys, pre) by {
        forall i | 0 <= i < |pre| ensures pre[i] == responses[i] { }
      }
      AddEvalResponse(EvalResponseTallies(t, items, pre), items, responses[|responses| - 1])
  }

  /** The ids of the items the correct responses find, in response order. */
  function FoundLectures(items: seq<Item>, responses: seq<Response>): seq<Id>
    requires forall i :: 0 <= i < |responses| ==> FindItem(items, responses[i].itemId).Some?
  {
    if responses == [] then []
    else
      var r := responses[|responses| - 1];
      FoundLectures(items, responses[..|responses| - 1]) +
        (if r.correct then [FindItem(items, r.itemId).value.lectureId] else [])
  }

  /** The responses pass of `EvalSummary` counts the correct responses under their item's `lectureId`. */
  lemma {:induction false} EvalResponseTalliesSpec(t: Tallies, items: seq<Item>, responses: seq<Response>)
    requires EvalSafe(items, t.byId.Keys, responses)
    ensures var u := EvalResponseTallies(t, items, responses);
      forall k :: k in t.byId ==> u.byId[k] == t.byId[k].(correct := t.byId[k].correct + multiset(FoundLectures(items, responses))[k])
  {
    if responses != [] {
      var pre := responses[..|responses| - 1];
      assert EvalSafe(items, t.byId.Keys, pre) by {
        forall i | 0 <= i < |pre| ensures pre[i] == responses[i] { }
      }
      EvalResponseTalliesSpec(t, items, pre);
    }
  }

  /** App.jsx:966-981 */
  function EvalByLecture(items: seq<Item>, lectures: map<Id, Lecture>, responses: seq<Response>): Tallies
    requires EvalSafe(items, ItemTallies(items, lectures).byId.Keys, responses)
  {
    EvalResponseTallies(ItemTallies(items, lectures), items, responses)
  }

  /**
   * `EvalSummary`: the same tallies and totals as the panel's items pass, and under each key
   * the correct responses whose found item names that key.
   */
  lemma EvalTalliesSpec(items: seq<Item>, lectures: map<Id, Lecture>, responses: seq<Response>)
    requires EvalSafe(items, ItemTallies(items, lectures).byId.Keys, responses)
    ensures var t := EvalByLecture(items, lectures, responses);
      && t.order == FirstOccurrences(LectureKeys(items, lectures))
      && KeysInOrder(t)
      && forall k :: k in t.byId ==>
           && t.byId[k].total == multiset(LectureKeys(items, lectures))[k]
           && t.byId[k].correct == multiset(FoundLectures(items, responses))[k]
  {
    ItemTalliesSpec(items, lectures);
    EvalResponseTalliesSpec(ItemTallies(items, lectures), items, responses);
  }

  // ---------------------------------------------------------------- the loops as written

  /** The body of the items loop. */
  method CountItem(t: Tallies, lectures: map<Id, Lecture>, it: Item) returns (u: Tallies)
    ensures u == AddItem(t, lectures, it)
  {
    u := t;
    if it.lectureId in lectures {
      var lec := lectures[it.lectureId];
      if lec.id !in u.byId {
        u := Tallies(u.order + [lec.id], u.byId[lec.id := Tally(lec.title, 0, 0)]);
      }
      u := u.(byId := u.byId[lec.id := u.byId[lec.id].(total := u.byId[lec.id].total + 1)]);
    }
  }

  /** The `run.items.forEach` loop of both views. */
  method TallyItems(items: seq<Item>, lectures: map<Id, Lecture>) returns (t: Tallies)
    ensures t == ItemTallies(items, lectures)
  {
    t := Tallies([], map[]);
    for i := 0 to |items|
      invariant t == ItemTallies(items[..i], lectures)
    {
      assert items[..i + 1][..i] == items[..i];
      t := CountItem(t, lectures, items[i]);
    }
    assert items[..|items|] == items;
  }

  /** The body of SummaryPanel's responses loop. */
  method CountResponse(t: Tallies, byId: map<Id, Item>, lectures: map<Id, Lecture>, r: Response) returns (u: Tallies)
    requires r.itemId in byId
    ensures u == AddResponse(t, byId, lectures, r)
  {
    u := t;
    var it := byId[r.itemId];
    if it.lectureId in lectures {
      var lec := lectures[it.lectureId];
      if r.correct && lec.id in u.byId {
        u := u.(byId := u.byId[lec.id := u.byId[lec.id].(correct := u.byId[lec.id].correct + 1)]);
      }
    }
  }

  /** SummaryPanel's `byLecture`: the items loop, then the `run.responses.forEach` loop. */
  method PanelTallies(items: seq<Item>, lectures: map<Id, Lecture>, responses: seq<Response>) returns (tallies: seq<Tally>)
    requires Answerable(items, responses)
    ensures var t := PanelByLecture(items, lectures, responses); KeysInOrder(t) && tallies == TallyList(t)
  {
    var byId := ItemsById(items);
    var t := TallyItems(items, lectures);
    for i := 0 to |responses|
      invariant t == ResponseTallies(ItemTallies(items, lectures), byId, lectures, responses[..i])
    {
      assert responses[..i + 1][..i] == responses[..i];
      t := CountResponse(t, byId, lectures, responses[i]);
    }
    assert responses[..|responses|] == responses;
    PanelTalliesSpec(items, lectures, responses);
    tallies := TallyList(t);
  }

  /** The first `n` responses are as safe to count as all of them. */
  lemma EvalSafePrefix(items: seq<Item>, keys: set<Id>, responses: seq<Response>, n: nat)
    requires EvalSafe(items, keys, responses) && n <= |responses|
    ensures EvalSafe(items, keys, responses[..n])
  {
    forall j | 0 <= j < n ensures responses[..n][j] == responses[j] { }
  }

  /** The body of `EvalSummary`'s responses loop. */
  method CountEvalResponse(t: Tallies, items: seq<Item>, r: Response) returns (u: Tallies)
    requires FindItem(items, r.itemId).Some?
    requires r.correct ==> FindItem(items, r.itemId).value.lectureId in t.byId
    ensures u == AddEvalResponse(t, items, r)
  {
    u := t;
    var it := FindItem(items, r.itemId).value;
    if r.correct {
      u := u.(byId := u.byId[it.lectureId := u.byId[it.lectureId].(correct := u.byId[it.lectureId].correct + 1)]);
    }
  }

  /** `EvalSummary` of App.jsx: the items loop, then the responses loop with `find`. */
  method EvalSummary(items: seq<Item>, lectures: map<Id, Lecture>, responses: seq<Response>)
    returns (tallies: seq<Tally>, totals: Totals)
    requires EvalSafe(items, ItemTallies(items, lectures).byId.Keys, responses)
    ensures var t := EvalByLecture(items, lectures, responses); KeysInOrder(t) && tallies == TallyList(t)
    ensures totals == Totals(CountCorrect(responses), |items|)
  {
    var t0 := TallyItems(items, lectures);
    var t := t0;
    for i := 0 to |responses|
      invariant t == EvalResponseTallies(t0, items, responses[..i])
    {
      EvalSafePrefix(items, t0.byId.Keys, responses, i + 1);
      assert responses[..i + 1][..i] == responses[..i];
      assert responses[..i + 1][i] == responses[i];
      t := CountEvalResponse(t, items, responses[i]);
    }
    assert responses[..|responses|] == responses;
    EvalTalliesSpec(items, lectures, responses);
    tallies := TallyList(t);
    totals := EvalTotals(items, responses);
  }
}
