/**
 * The backend's flashcard generator (backend/utils/flashgen.py) without its model calls:
 * key normalization, the administrative-term screen, the de-duplication of the final
 * cards, the filters applied to the two model replies, and the coverage loop that asks for
 * new concepts round after round. Each model call is a parameter: a function from what the
 * call is given to the reply it returns (`None` when the reply is not valid JSON).
 */
module FlashGen {
  import opened Wrappers
  import opened Text
  import opened Keyed

  // ---------------------------------------------------------------- keys and the admin screen

  /** `_norm_key(s)`: `None` counts as the empty string. */
  function NormKey(s: Option<string>): (r: string)
    ensures forall k :: 0 <= k < |r| ==> IsKeyChar(r[k])
    ensures s.None? || s == Some([]) ==> r == []
  {
    NormalizeTerm(s.GetOr([]))
  }

  /** A key is its own key. */
  lemma NormKeyIdempotent(s: Option<string>)
    ensures NormKey(Some(NormKey(s))) == NormKey(s)
  {
    NormalizeIdempotent(s.GetOr([]));
  }

  /** `_ADMIN_TERMS` */
  const AdminTerms: seq<string> :=
    ["lecture", "textbook", "conference", "slides", "canvas", "zoom", "office hours", "syllabus",
     "assignment", "deadline", "grading"]

  /** `any(b in s for b in terms)` */
  function MentionsAny(s: string, terms: seq<string>): bool {
    terms != [] && (Contains(s, terms[0]) || MentionsAny(s, terms[1..]))
  }

  /** Some term occurs in `s` at some index. */
  lemma {:induction false} MentionsAnyIff(s: string, terms: seq<string>)
    ensures MentionsAny(s, terms) <==> exists b, i :: b in terms && OccursAt(s, b, i)
  {
    if terms != [] {
      MentionsAnyIff(s, terms[1..]);
      ContainsIff(s, terms[0]);
      if exists b, i :: b in terms && OccursAt(s, b, i) {
        var b, i :| b in terms && OccursAt(s, b, i);
        if b != terms[0] {
          assert b in terms[1..];
        }
      }
    }
  }

  /** `_looks_admin(term, exp)` with both values present. */
  function LooksAdmin(term: string, exp: string): bool {
    MentionsAny(Lower(term), AdminTerms) || MentionsAny(Lower(exp), AdminTerms)
  }

  /** A card looks administrative exactly when some admin term occurs in its lowercased term or explanation. */
  lemma LooksAdminIff(term: string, exp: string)
    ensures LooksAdmin(term, exp) <==>
      exists b, i :: b in AdminTerms && (OccursAt(Lower(term), b, i) || OccursAt(Lower(exp), b, i))
  {
    MentionsAnyIff(Lower(term), AdminTerms);
    MentionsAnyIff(Lower(exp), AdminTerms);
  }

  // ---------------------------------------------------------------- _dedupe

  /** `{"term": c["term"].strip(), "explanation": c["explanation"].strip()}` */
  function Stripped(c: Row): Row {
    Row(PyStrip(c.term), PyStrip(c.explanation))
  }

  /** A stripped card is stripped for good and keeps its key. */
  lemma StrippedFacts(c: Row)
    ensures var r := Stripped(c);
      PyStrip(r.term) == r.term && PyStrip(r.explanation) == r.explanation && NormKey(Some(r.term)) == NormKey(Some(c.term))
  {
    PyStripIdempotent(c.term);
    PyStripIdempotent(c.explanation);
    NormalizePyStrip(c.term);
  }

  /** One pass of the `_dedupe` loop: an empty key is skipped, otherwise the card is offered under its key. */
  function DedupeStep(t: Table, c: Row): Table {
    var k := NormKey(Some(c.term));
    if k == [] then t else Offer(t, k, c, Stripped(c), CodePoints)
  }

  function DedupeTable(cards: seq<Row>): (t: Table)
    ensures WellFormed(t)
    ensures forall k :: k in t.byKey ==> k != []
  {
    if cards == [] then Table([], map[]) else DedupeStep(DedupeTable(cards[..|cards| - 1]), cards[|cards| - 1])
  }

  /** `_dedupe(cards)`: `list(by.values())`. */
  function Dedupe(cards: seq<Row>): seq<Row> {
    Values(DedupeTable(cards))
  }

  /** Every stored card sits under its own key. */
  lemma {:induction false} DedupeKeys(cards: seq<Row>)
    ensures forall k :: k in DedupeTable(cards).byKey ==> NormKey(Some(DedupeTable(cards).byKey[k].term)) == k
  {
    if cards != [] {
      var pre, c := cards[..|cards| - 1], cards[|cards| - 1];
      DedupeKeys(pre);
      var t0 := DedupeTable(pre);
      var k := NormKey(Some(c.term));
      assert DedupeTable(cards) == DedupeStep(t0, c);
      if k != [] {
        StrippedFacts(c);
        var t := Offer(t0, k, c, Stripped(c), CodePoints);
        forall k' | k' in t.byKey ensures NormKey(Some(t.byKey[k'].term)) == k' {
          if k' != k {
            assert t.byKey[k'] == t0.byKey[k'];
          }
        }
      }
    }
  }

  /** The non-empty keys of the cards, in card order. */
  function PresentKeys(cards: seq<Row>): (ks: seq<string>)
    ensures forall k :: k in ks ==> k != []
  {
    if cards == [] then []
    else
      var k := NormKey(Some(cards[|cards| - 1].term));
      PresentKeys(cards[..|cards| - 1]) + (if k == [] then [] else [k])
  }

  /** The kept cards follow the order in which their non-empty keys first occur. */
  lemma {:induction false} DedupeOrder(cards: seq<Row>)
    ensures DedupeTable(cards).order == FirstOccurrences(PresentKeys(cards))
  {
    if cards != [] {
      var pre := cards[..|cards| - 1];
      DedupeOrder(pre);
      var k := NormKey(Some(cards[|cards| - 1].term));
      if k != [] {
        var ks := PresentKeys(pre) + [k];
        assert ks[..|ks| - 1] == PresentKeys(pre);
      } else {
        assert PresentKeys(cards) == PresentKeys(pre);
      }
    }
  }

  /**
   * The output has one card per non-empty key, in first-occurrence order, with pairwise
   * distinct, non-empty keys; each output card is the stripped form of an input card with its key.
   */
  lemma DedupeSpec(cards: seq<Row>)
    ensures var out := Dedupe(cards);
      && |out| == |FirstOccurrences(PresentKeys(cards))|
      && (forall i :: 0 <= i < |out| ==> NormKey(Some(out[i].term)) == FirstOccurrences(PresentKeys(cards))[i])
      && (forall i, j :: 0 <= i < j < |out| ==> NormKey(Some(out[i].term)) != NormKey(Some(out[j].term)))
      && (forall i :: 0 <= i < |out| ==> NormKey(Some(out[i].term)) != [])
  {
    var t := DedupeTable(cards);
    DedupeOrder(cards);
    DedupeKeys(cards);
    assert forall i :: 0 <= i < |Dedupe(cards)| ==> NormKey(Some(Dedupe(cards)[i].term)) == t.order[i];
  }

  /** `v` is the stripped form of one of `cards`. */
  ghost predicate StrippedFrom(cards: seq<Row>, v: Row) {
    exists j :: 0 <= j < |cards| && v == Stripped(cards[j])
  }

  /** Every stored card was stripped from one of the input cards. */
  lemma {:induction false} DedupeFrom(cards: seq<Row>)
    ensures forall k :: k in DedupeTable(cards).byKey ==> StrippedFrom(cards, DedupeTable(cards).byKey[k])
  {
    if cards != [] {
      var pre, c := cards[..|cards| - 1], cards[|cards| - 1];
      DedupeFrom(pre);
      var t0 := DedupeTable(pre);
      var t := DedupeStep(t0, c);
      assert DedupeTable(cards) == t;
      forall k | k in t.byKey ensures StrippedFrom(cards, t.byKey[k]) {
        if k in t0.byKey && t.byKey[k] == t0.byKey[k] {
          var j :| 0 <= j < |pre| && t0.byKey[k] == Stripped(pre[j]);
          assert cards[j] == pre[j];
        } else {
          assert t.byKey[k] == Stripped(cards[|cards| - 1]);
        }
      }
    }
  }

  /**
   * The replacement rule, one card at a time: a card with an empty key changes nothing; a
   * card with a new key is stored stripped; a card with a known key replaces the stored card
   * exactly when its own explanation is strictly longer than the stored, stripped one.
   */
  lemma DedupeReplace(cards: seq<Row>, c: Row)
    ensures var t, u, k := DedupeTable(cards), DedupeTable(cards + [c]), NormKey(Some(c.term));
      && (k == [] ==> u == t)
      && (k != [] && k !in t.byKey ==> u.byKey == t.byKey[k := Stripped(c)])
      && (k != [] && k in t.byKey ==>
            u.byKey == t.byKey[k := if |c.explanation| > |t.byKey[k].explanation| then Stripped(c) else t.byKey[k]])
  {
    assert (cards + [c])[..|cards + [c]| - 1] == cards;
  }

  /**
   * When the cards come in stripped, as `_expand_concepts` returns them, every non-empty
   * key is kept with an explanation at least as long as any card's with that key.
   */
  lemma {:induction false} DedupeLongest(cards: seq<Row>)
    requires forall j :: 0 <= j < |cards| ==> PyStrip(cards[j].explanation) == cards[j].explanation
    ensures var t := DedupeTable(cards);
      forall j :: 0 <= j < |cards| && NormKey(Some(cards[j].term)) != [] ==>
        NormKey(Some(cards[j].term)) in t.byKey &&
        |cards[j].explanation| <= |t.byKey[NormKey(Some(cards[j].term))].explanation|
  {
    if cards != [] {
      var pre := cards[..|cards| - 1];
      assert forall j :: 0 <= j < |pre| ==> pre[j] == cards[j];
      DedupeLongest(pre);
      LongestStep(cards);
    }
  }

  /** One card of `DedupeLongest`: offering it keeps every key at its longest explanation so far. */
  lemma LongestStep(cards: seq<Row>)
    requires cards != [] && PyStrip(cards[|cards| - 1].explanation) == cards[|cards| - 1].explanation
    requires var t0 := DedupeTable(cards[..|cards| - 1]);
      forall j :: 0 <= j < |cards| - 1 && NormKey(Some(cards[j].term)) != [] ==>
        NormKey(Some(cards[j].term)) in t0.byKey &&
        |cards[j].explanation| <= |t0.byKey[NormKey(Some(cards[j].term))].explanation|
    ensures var t := DedupeTable(cards);
      forall j :: 0 <= j < |cards| && NormKey(Some(cards[j].term)) != [] ==>
        NormKey(Some(cards[j].term)) in t.byKey &&
        |cards[j].explanation| <= |t.byKey[NormKey(Some(cards[j].term))].explanation|
  {
    var pre, c := cards[..|cards| - 1], cards[|cards| - 1];
    var t0, t := DedupeTable(pre), DedupeTable(cards);
    var k := NormKey(Some(c.term));
    assert t == DedupeStep(t0, c);
    assert Stripped(c).explanation == c.explanation;
    forall j | 0 <= j < |cards| && NormKey(Some(cards[j].term)) != []
      ensures NormKey(Some(cards[j].term)) in t.byKey
      ensures |cards[j].explanation| <= |t.byKey[NormKey(Some(cards[j].term))].explanation|
    {
      var kj := NormKey(Some(cards[j].term));
      if kj != k {
        assert t.byKey[kj] == t0.byKey[kj];
      }
    }
  }

  /** The `for c in cards` loop of `_dedupe`. */
  method DedupeCards(cards: seq<Row>) returns (out: seq<Row>)
    ensures out == Dedupe(cards)
  {
    var seen := Table([], map[]);
    for i := 0 to |cards|
      invariant seen == DedupeTable(cards[..i])
    {
      assert cards[..i + 1][..i] == cards[..i];
      var c := cards[i];
      var k := NormKey(Some(c.term));
      if k != [] {
        if k !in seen.byKey || |c.explanation| > |seen.byKey[k].explanation| {
          seen := Put(seen, k, Stripped(c));
        }
      }
    }
    assert cards[..|cards|] == cards;
    out := Values(seen);
  }

  // ---------------------------------------------------------------- the model replies

  /** A JSON value as the filters see it: a string, or any other value, falsy or truthy. */
  datatype JsonValue = Str(s: string) | Falsy | Truthy

  /** `_enumerate_concepts`, lines 141-146, for one concept: a non-empty string, stripped, with a key and not itself an admin term. */
  function CleanConcept(v: JsonValue): Option<string> {
    match v
    case Str(s) =>
      var c := PyStrip(s);
      if s != [] && NormKey(Some(c)) != [] && Lower(c) !in AdminTerms then Some(c) else None
    case _ => None
  }

  function CleanConcepts(vs: seq<JsonValue>): (r: seq<string>)
    ensures |r| <= |vs|
  {
    if vs == [] then [] else CleanConcepts(vs[..|vs| - 1]) + (match CleanConcept(vs[|vs| - 1]) case Some(c) => [c] case None => [])
  }

  /** A concept is kept exactly when it is the stripped form of a listed non-empty string with a key and is not an admin term. */
  lemma {:induction false} CleanConceptsMembers(vs: seq<JsonValue>, c: string)
    ensures c in CleanConcepts(vs) <==>
      exists i :: 0 <= i < |vs| && vs[i].Str? && vs[i].s != [] && c == PyStrip(vs[i].s) &&
        NormKey(Some(c)) != [] && Lower(c) !in AdminTerms
  {
    if vs != [] {
      var pre := vs[..|vs| - 1];
      CleanConceptsMembers(pre, c);
      assert forall i :: 0 <= i < |pre| ==> pre[i] == vs[i];
    }
  }

  /** Filtering keeps the reply's order: it commutes with concatenation. */
  lemma {:induction false} CleanConceptsConcat(a: seq<JsonValue>, b: seq<JsonValue>)
    ensures CleanConcepts(a + b) == CleanConcepts(a) + CleanConcepts(b)
    decreases |b|
  {
    if b == [] {
      assert a + b == a;
    } else {
      var pre := b[..|b| - 1];
      assert (a + b)[..|a + b| - 1] == a + pre;
      CleanConceptsConcat(a, pre);
    }
  }

  /** `_enumerate_concepts` after the call: an unreadable reply gives no concepts. */
  function EnumerateResult(reply: Option<seq<JsonValue>>): seq<string> {
    match reply
    case None => []
    case Some(vs) => CleanConcepts(vs)
  }

  /** The comprehension and the `clean.append` loop of `_enumerate_concepts`. */
  method EnumerateFilter(reply: Option<seq<JsonValue>>) returns (clean: seq<string>)
    ensures clean == EnumerateResult(reply)
  {
    clean := [];
    if reply.Some? {
      var vs := reply.value;
      for i := 0 to |vs|
        invariant clean == CleanConcepts(vs[..i])
      {
        assert vs[..i + 1][..i] == vs[..i];
        if vs[i].Str? && vs[i].s != [] {
          var c := PyStrip(vs[i].s);
          if NormKey(Some(c)) != [] && Lower(c) !in AdminTerms {
            clean := clean + [c];
          }
        }
      }
      assert vs[..|vs|] == vs;
    }
  }

  /** One entry of the `flashcards` list: an object with a term and an explanation, or any other value. */
  datatype RawCard = CardObject(term: JsonValue, explanation: JsonValue) | NotObject

  /** `(v or "").strip()`, or `None` when `strip` is called on a value that is not a string. */
  function FieldText(v: JsonValue): Option<string> {
    match v
    case Str(s) => Some(PyStrip(s))
    case Falsy => Some([])
    case Truthy => None
  }

  /** What `_expand_concepts` does with one entry: raise, skip it, or keep a card. */
  datatype Verdict = Raise | Skip | Keep(row: Row)

  /** `_expand_concepts`, lines 178-184, for one entry. */
  function CardVerdict(c: RawCard): Verdict {
    match c
    case NotObject => Raise
    case CardObject(t, e) =>
      match (FieldText(t), FieldText(e))
      case (Some(term), Some(exp)) =>
        if term == [] || exp == [] || LooksAdmin(term, exp) || |Words(exp)| < 6 then Skip else Keep(Row(term, exp))
      case _ => Raise
  }

  /** A kept card has a non-empty stripped term, a stripped explanation of at least six words, and does not look administrative. */
  lemma KeepShape(c: RawCard)
    requires CardVerdict(c).Keep?
    ensures var r := CardVerdict(c).row;
      && r.term != [] && r.explanation != [] && !LooksAdmin(r.term, r.explanation) && |Words(r.explanation)| >= 6
      && PyStrip(r.term) == r.term && PyStrip(r.explanation) == r.explanation
  {
    PyStripIdempotent(c.term.s);
    PyStripIdempotent(c.explanation.s);
  }

  /** The loop over the entries; an exception anywhere loses the whole list (`except Exception: return []`). */
  function ExpandFold(cs: seq<RawCard>): Option<seq<Row>> {
    if cs == [] then Some([])
    else
      match (ExpandFold(cs[..|cs| - 1]), CardVerdict(cs[|cs| - 1]))
      case (None, _) => None
      case (_, Raise) => None
      case (Some(out), Skip) => Some(out)
      case (Some(out), Keep(r)) => Some(out + [r])
  }

  function KeptRow(v: Verdict): Option<Row> {
    if v.Keep? then Some(v.row) else None
  }

  /** The loop fails exactly when some entry raises. */
  lemma {:induction false} ExpandFoldFails(cs: seq<RawCard>)
    ensures ExpandFold(cs).None? <==> exists i :: 0 <= i < |cs| && CardVerdict(cs[i]).Raise?
  {
    if cs != [] {
      var pre := cs[..|cs| - 1];
      ExpandFoldFails(pre);
      assert forall i :: 0 <= i < |pre| ==> pre[i] == cs[i];
    }
  }

  /** When the loop does not fail, it keeps the kept cards of the entries, in entry order. */
  lemma {:induction false} ExpandFoldKeeps(cs: seq<RawCard>)
    ensures ExpandFold(cs).Some? ==>
      ExpandFold(cs).value == Somes(seq(|cs|, i requires 0 <= i < |cs| => KeptRow(CardVerdict(cs[i]))))
  {
    if cs != [] {
      var pre := cs[..|cs| - 1];
      ExpandFoldKeeps(pre);
      var os := seq(|cs|, i requires 0 <= i < |cs| => KeptRow(CardVerdict(cs[i])));
      assert os[..|os| - 1] == seq(|pre|, i requires 0 <= i < |pre| => KeptRow(CardVerdict(pre[i])));
    }
  }

  /** `_expand_concepts(text, concepts)`: nothing is asked for no concepts, and an unreadable or failing reply gives no cards. */
  function ExpandResult(concepts: seq<string>, reply: Option<seq<RawCard>>): (r: seq<Row>)
    ensures concepts == [] || reply.None? ==> r == []
  {
    if concepts == [] then []
    else
      match reply
      case None => []
      case Some(cs) => ExpandFold(cs).GetOr([])
  }

  /** The `out.append` loop of `_expand_concepts`, returning early on an exception. */
  method ExpandFilter(cs: seq<RawCard>) returns (out: Option<seq<Row>>)
    ensures out == ExpandFold(cs)
  {
    var acc := [];
    for i := 0 to |cs|
      invariant ExpandFold(cs[..i]) == Some(acc)
    {
      assert cs[..i + 1][..i] == cs[..i];
      var v := CardVerdict(cs[i]);
      if v.Raise? {
        FoldRaises(cs, i + 1);
        return None;
      }
      if v.Keep? {
        acc := acc + [v.row];
      }
    }
    assert cs[..|cs|] == cs;
    out := Some(acc);
  }

  /** Once the loop has raised, the rest of the entries do not matter. */
  lemma {:induction false} FoldRaises(cs: seq<RawCard>, n: nat)
    requires n <= |cs| && ExpandFold(cs[..n]).None?
    ensures ExpandFold(cs).None?
    decreases |cs| - n
  {
    if n < |cs| {
      assert cs[..n + 1][..n] == cs[..n];
      FoldRaises(cs, n + 1);
    } else {
      assert cs[..n] == cs;
    }
  }

  /** `_summarize`: no call for an empty text; the reply's `summary`, stripped, or "" when it is missing or unreadable. */
  function Summarize(text: string, reply: Option<JsonValue>): (r: string)
    ensures PyStrip(text) == [] ==> r == []
    ensures PyStrip(r) == r
  {
    PyStripIdempotent([]);
    if PyStrip(text) == [] then []
    else
      match reply
      case Some(Str(s)) => PyStripIdempotent(s); PyStrip(s)
      case _ => []
  }

  // ---------------------------------------------------------------- the coverage loop

  /** The keys of the covered concepts. */
  function CoveredKeys(covered: set<string>): set<string> {
    set x | x in covered :: NormKey(Some(x))
  }

  /** `[c for c in candidates if _norm_key(c) not in {_norm_key(x) for x in covered}]` */
  function Unseen(candidates: seq<string>, covered: set<string>): (r: seq<string>)
    ensures |r| <= |candidates|
  {
    if candidates == [] then []
    else
      var c := candidates[|candidates| - 1];
      Unseen(candidates[..|candidates| - 1], covered) + (if NormKey(Some(c)) !in CoveredKeys(covered) then [c] else [])
  }

  /** A candidate is new exactly when its key is not the key of a covered concept. */
  lemma {:induction false} UnseenMembers(candidates: seq<string>, covered: set<string>)
    ensures forall c :: c in Unseen(candidates, covered) <==> c in candidates && NormKey(Some(c)) !in CoveredKeys(covered)
  {
    if candidates != [] {
      var pre := candidates[..|candidates| - 1];
      UnseenMembers(pre, covered);
      assert candidates == pre + [candidates[|candidates| - 1]];
    }
  }

  /** Python's `s[:n]`: a negative `n` counts from the end. */
  function PyPrefix(s: seq<string>, n: int): (r: seq<string>)
    ensures |r| <= |s| && r == s[..|r|]
    ensures n >= 0 ==> |r| == Min(n, |s|)
    ensures n < 0 ==> |r| == Max(0, |s| + n)
  {
    if n >= 0 then s[..Min(n, |s|)] else s[..Max(0, |s| + n)]
  }

  /** The model's reply to the enumeration prompt of round `r`, given the covered concepts and the guidance paragraph. */
  type Enumerator = (nat, set<string>, string) -> Option<seq<JsonValue>>

  /** The model's reply to the expansion prompt of round `r`, given the batch and the guidance paragraph. */
  type Expander = (nat, seq<string>, string) -> Option<seq<RawCard>>

  /** `_enumerate_concepts` as the loop sees it: round, covered concepts and guidance to concepts. */
  type Concepts = (nat, set<string>, string) -> seq<string>

  /** `_expand_concepts` as the loop sees it: round, batch and guidance to cards. */
  type Expansion = (nat, seq<string>, string) -> seq<Row>

  /** `_enumerate_concepts` over the model's replies. */
  function EnumerateWith(ask: Enumerator): Concepts {
    (r: nat, covered: set<string>, guidance: string) => EnumerateResult(ask(r, covered, guidance))
  }

  /** `_expand_concepts` over the model's replies. */
  function ExpandWith(expand: Expander): Expansion {
    (r: nat, batch: seq<string>, guidance: string) => ExpandResult(batch, expand(r, batch, guidance))
  }

  /** What one round saw: the covered concepts it started from, the candidates, the new ones, the batch and its cards. */
  datatype RoundLog = RoundLog(before: set<string>, candidates: seq<string>, unseen: seq<string>, batch: seq<string>, expanded: seq<Row>)

  datatype Coverage = Coverage(covered: set<string>, cards: seq<Row>, log: seq<RoundLog>, stopped: bool)

  /** The concepts of a list, as `covered.add` collects them. */
  function Elems(xs: seq<string>): set<string> {
    set c | c in xs
  }

  /** One round of the loop: ask for concepts, stop when none is new, otherwise expand a batch and cover it. */
  function Round(st: Coverage, r: nat, concepts: Concepts, expansion: Expansion, expandBatch: int, guidance: string): Coverage {
    var candidates := concepts(r, st.covered, guidance);
    var unseen := Unseen(candidates, st.covered);
    if unseen == [] then st.(log := st.log + [RoundLog(st.covered, candidates, [], [], [])], stopped := true)
    else
      var batch := PyPrefix(unseen, expandBatch);
      var expanded := expansion(r, batch, guidance);
      Coverage(st.covered + Elems(batch), st.cards + expanded, st.log + [RoundLog(st.covered, candidates, unseen, batch, expanded)], false)
  }

  /** The state after the first `n` rounds of `range(n)`, the rounds after a `break` doing nothing. */
  function Rounds(n: nat, concepts: Concepts, expansion: Expansion, expandBatch: int, guidance: string): Coverage {
    if n == 0 then Coverage({}, [], [], false)
    else
      var st := Rounds(n - 1, concepts, expansion, expandBatch, guidance);
      if st.stopped then st else Round(st, n - 1, concepts, expansion, expandBatch, guidance)
  }

  /** The expanded cards of the logged rounds, laid end to end (`cards.extend`). */
  function AllExpanded(log: seq<RoundLog>): seq<Row> {
    if log == [] then [] else AllExpanded(log[..|log| - 1]) + log[|log| - 1].expanded
  }

  /** At most `n` rounds ran; only a final round may have found nothing new, and then the loop stopped. */
  ghost predicate LogShape(st: Coverage, n: nat) {
    && |st.log| <= n
    && (!st.stopped ==> |st.log| == n)
    && (st.stopped ==> |st.log| >= 1 && st.log[|st.log| - 1].unseen == [] && st.log[|st.log| - 1].batch == [])
    && (forall i :: 0 <= i < |st.log| && (i < |st.log| - 1 || !st.stopped) ==> st.log[i].unseen != [])
  }

  /** Each batch is a prefix of its round's new concepts, no longer than a non-negative `expandBatch`. */
  ghost predicate BatchShape(st: Coverage, expandBatch: int) {
    && (forall i :: 0 <= i < |st.log| ==> |st.log[i].batch| <= |st.log[i].unseen| && st.log[i].batch == st.log[i].unseen[..|st.log[i].batch|])
    && (forall i :: 0 <= i < |st.log| && expandBatch >= 0 ==> |st.log[i].batch| <= expandBatch)
  }

  /** Each round's new concepts are its candidates filtered against the concepts covered before it. */
  ghost predicate NewConcepts(st: Coverage) {
    forall i :: 0 <= i < |st.log| ==> st.log[i].unseen == Unseen(st.log[i].candidates, st.log[i].before)
  }

  /**
   * The covered concepts grow round by round by the batches: the first round starts from
   * none, each round's start and batch make the next round's start, and the last make `covered`.
   */
  ghost predicate CoveredFacts(st: Coverage) {
    && (st.log == [] ==> st.covered == {})
    && (st.log != [] ==> st.log[0].before == {} && st.covered == st.log[|st.log| - 1].before + Elems(st.log[|st.log| - 1].batch))
    && (forall i :: 0 <= i < |st.log| - 1 ==> st.log[i + 1].before == st.log[i].before + Elems(st.log[i].batch))
  }

  /** A concept batched in one round is covered at the start of every later round. */
  lemma {:induction false} BatchedBefore(st: Coverage, j: nat, i: nat)
    requires CoveredFacts(st) && j < i < |st.log|
    ensures Elems(st.log[j].batch) <= st.log[i].before
    decreases i - j
  {
    if j + 1 < i {
      BatchedBefore(st, j, i - 1);
    }
  }

  /** What the loop promises after any number of rounds. */
  ghost predicate CoverageFacts(st: Coverage, n: nat, expandBatch: int) {
    LogShape(st, n) && BatchShape(st, expandBatch) && NewConcepts(st) && CoveredFacts(st) && st.cards == AllExpanded(st.log)
  }

  /**
   * At most `n` rounds run; every round but a final stopping one found a new candidate;
   * each batch is a prefix of that round's new concepts, no longer than `expandBatch`; the
   * new concepts are the candidates filtered against the concepts covered before the round,
   * which are those of the earlier batches; the cards are all expanded cards in order.
   */
  lemma RoundsSpec(n: nat, concepts: Concepts, expansion: Expansion, expandBatch: int, guidance: string)
    ensures CoverageFacts(Rounds(n, concepts, expansion, expandBatch, guidance), n, expandBatch)
  {
    RoundsShape(n, concepts, expansion, expandBatch, guidance);
    RoundsBatches(n, concepts, expansion, expandBatch, guidance);
    RoundsNew(n, concepts, expansion, expandBatch, guidance);
    RoundsCovered(n, concepts, expansion, expandBatch, guidance);
    RoundsCards(n, concepts, expansion, expandBatch, guidance);
  }

  lemma {:induction false} RoundsShape(n: nat, concepts: Concepts, expansion: Expansion, expandBatch: int, guidance: string)
    ensures LogShape(Rounds(n, concepts, expansion, expandBatch, guidance), n)
  {
    if n > 0 {
      RoundsShape(n - 1, concepts, expansion, expandBatch, guidance);
      ShapeStep(n, concepts, expansion, expandBatch, guidance);
    }
  }

  /** Round `n` keeps `LogShape`. */
  lemma ShapeStep(n: nat, concepts: Concepts, expansion: Expansion, expandBatch: int, guidance: string)
    requires n > 0 && LogShape(Rounds(n - 1, concepts, expansion, expandBatch, guidance), n - 1)
    ensures LogShape(Rounds(n, concepts, expansion, expandBatch, guidance), n)
  {
    var st := Rounds(n - 1, concepts, expansion, expandBatch, guidance);
    if !st.stopped {
      var u := Round(st, n - 1, concepts, expansion, expandBatch, guidance);
      assert forall i :: 0 <= i < |st.log| ==> u.log[i] == st.log[i];
    }
  }

  lemma {:induction false} RoundsBatches(n: nat, concepts: Concepts, expansion: Expansion, expandBatch: int, guidance: string)
    ensures BatchShape(Rounds(n, concepts, expansion, expandBatch, guidance), expandBatch)
  {
    if n > 0 {
      RoundsBatches(n - 1, concepts, expansion, expandBatch, guidance);
      BatchStep(n, concepts, expansion, expandBatch, guidance);
    }
  }

  /** Round `n` keeps `BatchShape`. */
  lemma BatchStep(n: nat, concepts: Concepts, expansion: Expansion, expandBatch: int, guidance: string)
    requires n > 0 && BatchShape(Rounds(n - 1, concepts, expansion, expandBatch, guidance), expandBatch)
    ensures BatchShape(Rounds(n, concepts, expansion, expandBatch, guidance), expandBatch)
  {
    var st := Rounds(n - 1, concepts, expansion, expandBatch, guidance);
    if !st.stopped {
      var u := Round(st, n - 1, concepts, expansion, expandBatch, guidance);
      assert forall i :: 0 <= i < |st.log| ==> u.log[i] == st.log[i];
    }
  }

  lemma {:induction false} RoundsNew(n: nat, concepts: Concepts, expansion: Expansion, expandBatch: int, guidance: string)
    ensures NewConcepts(Rounds(n, concepts, expansion, expandBatch, guidance))
  {
    if n > 0 {
      RoundsNew(n - 1, concepts, expansion, expandBatch, guidance);
      NewStep(n, concepts, expansion, expandBatch, guidance);
    }
  }

  /** Round `n` keeps `NewConcepts`. */
  lemma NewStep(n: nat, concepts: Concepts, expansion: Expansion, expandBatch: int, guidance: string)
    requires n > 0 && NewConcepts(Rounds(n - 1, concepts, expansion, expandBatch, guidance))
    ensures NewConcepts(Rounds(n, concepts, expansion, expandBatch, guidance))
  {
    var st := Rounds(n - 1, concepts, expansion, expandBatch, guidance);
    if !st.stopped {
      var u := Round(st, n - 1, concepts, expansion, expandBatch, guidance);
      assert forall i :: 0 <= i < |st.log| ==> u.log[i] == st.log[i];
    }
  }

  lemma {:induction false} RoundsCovered(n: nat, concepts: Concepts, expansion: Expansion, expandBatch: int, guidance: string)
    ensures CoveredFacts(Rounds(n, concepts, expansion, expandBatch, guidance))
  {
    if n > 0 {
      RoundsCovered(n - 1, concepts, expansion, expandBatch, guidance);
      CoveredStep(n, concepts, expansion, expandBatch, guidance);
    }
  }

  /** Round `n` keeps `CoveredFacts`: it starts from the covered set, which then grows by its batch. */
  lemma CoveredStep(n: nat, concepts: Concepts, expansion: Expansion, expandBatch: int, guidance: string)
    requires n > 0 && CoveredFacts(Rounds(n - 1, concepts, expansion, expandBatch, guidance))
    ensures CoveredFacts(Rounds(n, concepts, expansion, expandBatch, guidance))
  {
    var st := Rounds(n - 1, concepts, expansion, expandBatch, guidance);
    if !st.stopped {
      var u := Round(st, n - 1, concepts, expansion, expandBatch, guidance);
      assert forall i :: 0 <= i < |st.log| ==> u.log[i] == st.log[i];
    }
  }

  lemma {:induction false} RoundsCards(n: nat, concepts: Concepts, expansion: Expansion, expandBatch: int, guidance: string)
    ensures var st := Rounds(n, concepts, expansion, expandBatch, guidance); st.cards == AllExpanded(st.log)
  {
    if n > 0 {
      RoundsCards(n - 1, concepts, expansion, expandBatch, guidance);
      CardsStep(n, concepts, expansion, expandBatch, guidance);
    }
  }

  /** Round `n` appends its expanded cards to the cards and its record to the log. */
  lemma CardsStep(n: nat, concepts: Concepts, expansion: Expansion, expandBatch: int, guidance: string)
    requires n > 0
    requires var st := Rounds(n - 1, concepts, expansion, expandBatch, guidance); st.cards == AllExpanded(st.log)
    ensures var st := Rounds(n, concepts, expansion, expandBatch, guidance); st.cards == AllExpanded(st.log)
  {
    var st := Rounds(n - 1, concepts, expansion, expandBatch, guidance);
    if !st.stopped {
      var u := Round(st, n - 1, concepts, expansion, expandBatch, guidance);
      assert u.log[..|u.log| - 1] == st.log;
    }
  }

  /**
   * The point of the loop: a concept batched in a round shares its key with no concept
   * batched in an earlier round, so no key is expanded twice.
   */
  lemma NoKeyTwice(n: nat, concepts: Concepts, expansion: Expansion, expandBatch: int, guidance: string)
    ensures var log := Rounds(n, concepts, expansion, expandBatch, guidance).log;
      forall i, j, c, x :: 0 <= j < i < |log| && c in log[i].batch && x in log[j].batch ==>
        NormKey(Some(c)) != NormKey(Some(x))
  {
    var log := Rounds(n, concepts, expansion, expandBatch, guidance).log;
    RoundsBatches(n, concepts, expansion, expandBatch, guidance);
    RoundsNew(n, concepts, expansion, expandBatch, guidance);
    RoundsCovered(n, concepts, expansion, expandBatch, guidance);
    forall i, j, c, x | 0 <= j < i < |log| && c in log[i].batch && x in log[j].batch
      ensures NormKey(Some(c)) != NormKey(Some(x))
    {
      var e := log[i];
      assert c in e.unseen;
      UnseenMembers(e.candidates, e.before);
      BatchedBefore(Rounds(n, concepts, expansion, expandBatch, guidance), j, i);
      assert x in Elems(log[j].batch);
      assert NormKey(Some(x)) in CoveredKeys(e.before);
    }
  }

  /** `covered` only grows: every round's starting set and its batch are part of the final `covered`. */
  lemma {:induction false} BeforeCovered(st: Coverage, i: nat)
    requires CoveredFacts(st) && i < |st.log|
    ensures st.log[i].before <= st.covered && Elems(st.log[i].batch) <= st.covered
    decreases |st.log| - i
  {
    if i + 1 < |st.log| {
      BeforeCovered(st, i + 1);
    }
  }

  /** After a `break`, later rounds change nothing. */
  lemma {:induction false} StoppedStays(m: nat, n: nat, concepts: Concepts, expansion: Expansion, expandBatch: int, guidance: string)
    requires m <= n && Rounds(m, concepts, expansion, expandBatch, guidance).stopped
    ensures Rounds(n, concepts, expansion, expandBatch, guidance) == Rounds(m, concepts, expansion, expandBatch, guidance)
    decreases n - m
  {
    if m < n {
      StoppedStays(m, n - 1, concepts, expansion, expandBatch, guidance);
      var st := Rounds(n - 1, concepts, expansion, expandBatch, guidance);
      assert st.stopped;
      assert Rounds(n, concepts, expansion, expandBatch, guidance) == st;
      assert st == Rounds(m, concepts, expansion, expandBatch, guidance);
      return;
    }
    assert m == n;
    return;
  }

  /** `range(iterations)` runs no round for a count below one. */
  function RoundCount(iterations: int): nat {
    if iterations < 0 then 0 else iterations
  }

  /** One pass of the loop body over the replies of round `r`; `stop` is the `break`. */
  method PlayRound(covered: set<string>, cards: seq<Row>, r: nat, ask: Enumerator, expand: Expander, expandBatch: int,
                   guidance: string, ghost st: Coverage)
    returns (stop: bool, nextCovered: set<string>, nextCards: seq<Row>)
    requires st.covered == covered && st.cards == cards
    ensures var u := Round(st, r, EnumerateWith(ask), ExpandWith(expand), expandBatch, guidance);
      stop == u.stopped && nextCovered == u.covered && nextCards == u.cards
  {
    var candidates := EnumerateFilter(ask(r, covered, guidance));
    assert candidates == EnumerateWith(ask)(r, st.covered, guidance);
    var unseen := NewCandidates(candidates, covered);
    if unseen == [] {
      return true, covered, cards;
    }
    var batch := PyPrefix(unseen, expandBatch);
    var expanded: seq<Row> := [];
    if batch != [] {
      var reply := expand(r, batch, guidance);
      if reply.Some? {
        var out := ExpandFilter(reply.value);
        expanded := out.GetOr([]);
      }
    }
    assert expanded == ExpandWith(expand)(r, batch, guidance);
    return false, covered + (set c | c in batch), cards + expanded;
  }

  /** The loop of `generate_flashcards_iterative` and `generate_flashcards_and_summary`, then `_dedupe(cards)`. */
  method CoverageLoop(iterations: int, expandBatch: int, ask: Enumerator, expand: Expander, guidance: string)
    returns (flashcards: seq<Row>)
    ensures flashcards == Dedupe(Rounds(RoundCount(iterations), EnumerateWith(ask), ExpandWith(expand), expandBatch, guidance).cards)
  {
    var covered: set<string> := {};
    var cards: seq<Row> := [];
    var n := RoundCount(iterations);
    for r := 0 to n
      invariant var st := Rounds(r, EnumerateWith(ask), ExpandWith(expand), expandBatch, guidance);
        !st.stopped && covered == st.covered && cards == st.cards
    {
      var stop;
      stop, covered, cards := PlayRound(covered, cards, r, ask, expand, expandBatch, guidance,
                                        Rounds(r, EnumerateWith(ask), ExpandWith(expand), expandBatch, guidance));
      if stop {
        StoppedStays(r + 1, n, EnumerateWith(ask), ExpandWith(expand), expandBatch, guidance);
        break;
      }
    }
    flashcards := DedupeCards(cards);
  }

  /** The `new_candidates` comprehension. */
  method NewCandidates(candidates: seq<string>, covered: set<string>) returns (unseen: seq<string>)
    ensures unseen == Unseen(candidates, covered)
  {
    var keys := set x | x in covered :: NormKey(Some(x));
    unseen := [];
    for i := 0 to |candidates|
      invariant unseen == Unseen(candidates[..i], covered)
    {
      assert candidates[..i + 1][..i] == candidates[..i];
      if NormKey(Some(candidates[i])) !in keys {
        unseen := unseen + [candidates[i]];
      }
    }
    assert candidates[..|candidates|] == candidates;
  }

  /** A card as `_expand_concepts` lets it through: stripped, non-empty, not administrative, six words or more. */
  ghost predicate Admitted(r: Row) {
    && r.term != [] && r.explanation != [] && PyStrip(r.term) == r.term && PyStrip(r.explanation) == r.explanation
    && !LooksAdmin(r.term, r.explanation) && |Words(r.explanation)| >= 6
  }

  /** Every card the entry loop keeps was admitted. */
  lemma {:induction false} ExpandFoldAdmitted(cs: seq<RawCard>)
    ensures ExpandFold(cs).Some? ==> forall r :: r in ExpandFold(cs).value ==> Admitted(r)
  {
    if cs != [] {
      var pre, c := cs[..|cs| - 1], cs[|cs| - 1];
      ExpandFoldAdmitted(pre);
      if CardVerdict(c).Keep? {
        KeepShape(c);
      }
    }
  }

  /** Every card one expansion call returns was admitted. */
  lemma ExpandWithAdmitted(expand: Expander, r: nat, batch: seq<string>, guidance: string)
    ensures forall c :: c in ExpandWith(expand)(r, batch, guidance) ==> Admitted(c)
  {
    var reply := expand(r, batch, guidance);
    if batch != [] && reply.Some? {
      ExpandFoldAdmitted(reply.value);
    }
  }

  /** Every card the expansion step can return is admitted. */
  ghost predicate OnlyAdmitted(expansion: Expansion, guidance: string) {
    forall r, batch, c :: c in expansion(r, batch, guidance) ==> Admitted(c)
  }

  /** Every card the rounds collect was admitted by its round's expansion call. */
  lemma {:induction false} RoundsAdmitted(n: nat, concepts: Concepts, expansion: Expansion, expandBatch: int, guidance: string)
    requires OnlyAdmitted(expansion, guidance)
    ensures forall c :: c in Rounds(n, concepts, expansion, expandBatch, guidance).cards ==> Admitted(c)
  {
    if n > 0 {
      RoundsAdmitted(n - 1, concepts, expansion, expandBatch, guidance);
    }
  }

  /** On stripped cards `_dedupe` returns some of its own input cards. */
  lemma DedupeKeepsInputs(cards: seq<Row>)
    requires forall j :: 0 <= j < |cards| ==> Stripped(cards[j]) == cards[j]
    ensures forall i :: 0 <= i < |Dedupe(cards)| ==> Dedupe(cards)[i] in cards
  {
    DedupeFrom(cards);
    var t := DedupeTable(cards);
    forall i | 0 <= i < |Dedupe(cards)| ensures Dedupe(cards)[i] in cards {
      assert t.order[i] in t.byKey;
      var j :| 0 <= j < |cards| && t.byKey[t.order[i]] == Stripped(cards[j]);
    }
  }

  /**
   * What the generators return: each flashcard is one of the expanded cards, admitted by
   * the filter of `_expand_concepts`, and no two flashcards share a key.
   */
  lemma GeneratedCards(n: nat, ask: Enumerator, expand: Expander, expandBatch: int, guidance: string)
    ensures var cards := Rounds(n, EnumerateWith(ask), ExpandWith(expand), expandBatch, guidance).cards;
      var out := Dedupe(cards);
      && (forall i :: 0 <= i < |out| ==> out[i] in cards && Admitted(out[i]))
      && (forall i, j :: 0 <= i < j < |out| ==> NormKey(Some(out[i].term)) != NormKey(Some(out[j].term)))
  {
    var cards := Rounds(n, EnumerateWith(ask), ExpandWith(expand), expandBatch, guidance).cards;
    forall r, batch ensures forall c :: c in ExpandWith(expand)(r, batch, guidance) ==> Admitted(c) {
      ExpandWithAdmitted(expand, r, batch, guidance);
    }
    RoundsAdmitted(n, EnumerateWith(ask), ExpandWith(expand), expandBatch, guidance);
    assert forall j :: 0 <= j < |cards| ==> Stripped(cards[j]) == cards[j] by {
      forall j | 0 <= j < |cards| ensures Stripped(cards[j]) == cards[j] {
        assert Admitted(cards[j]);
      }
    }
    DedupeKeepsInputs(cards);
    DedupeSpec(cards);
  }

  /** `generate_flashcards_iterative(text, iterations, enumerate_batch, expand_batch)`: no guidance paragraph. */
  method GenerateIterative(iterations: int, expandBatch: int, ask: Enumerator, expand: Expander)
    returns (flashcards: seq<Row>)
    ensures flashcards == Dedupe(Rounds(RoundCount(iterations), EnumerateWith(ask), ExpandWith(expand), expandBatch, []).cards)
  {
    flashcards := CoverageLoop(iterations, expandBatch, ask, expand, []);
  }

  /** `generate_flashcards_and_summary`: the summary first, then the loop guided by it. */
  method GenerateWithSummary(text: string, summaryReply: Option<JsonValue>, iterations: int, expandBatch: int,
                             ask: Enumerator, expand: Expander)
    returns (summary: string, flashcards: seq<Row>)
    ensures summary == Summarize(PyStrip(text), summaryReply)
    ensures flashcards == Dedupe(Rounds(RoundCount(iterations), EnumerateWith(ask), ExpandWith(expand), expandBatch, summary).cards)
  {
    summary := Summarize(PyStrip(text), summaryReply);
    flashcards := CoverageLoop(iterations, expandBatch, ask, expand, summary);
  }
}
