/**
 * The local heuristic flashcard extractor, `generateCardsLocally` in frontend/src/App.jsx:
 * three independent passes over the trimmed non-empty lines (markdown table, delimiter
 * line, heading followed by a line), then de-duplication by normalized term keeping the
 * longest explanation, capped at 500 rows. Each regular expression is restated as a
 * character-level definition of what it matches.
 */
module Extractor {
  import opened Wrappers
  import opened Text
  import opened Keyed

  /** The cap on the extractor's output. */
  const MaxRows: nat := 500

  /** The bound `term.length < 120` of the delimiter pass, in UTF-16 code units. */
  const MaxTermLen: nat := 120

  // ---------------------------------------------------------------- pieces and lines

  /** A trimmed piece, kept when non-empty (the `.filter(Boolean)` test). */
  function NonEmpty(s: string): Option<string> {
    if s != [] then Some(s) else None
  }

  function TrimmedParts(parts: seq<string>): (os: seq<Option<string>>)
    ensures |os| == |parts| && forall j :: 0 <= j < |parts| ==> os[j] == NonEmpty(Trim(parts[j]))
  {
    seq(|parts|, j requires 0 <= j < |parts| => NonEmpty(Trim(parts[j])))
  }

  /** `.map((s) => s.trim()).filter(Boolean)`: the non-empty trimmed pieces, in order. */
  function Pieces(parts: seq<string>): seq<string> {
    Somes(TrimmedParts(parts))
  }

  /**
   * Every piece is a non-empty trimmed part with nothing left to trim, and every part that
   * trims to something is a piece.
   */
  lemma PiecesMembers(parts: seq<string>, l: string)
    ensures l in Pieces(parts) <==> exists j :: 0 <= j < |parts| && l == Trim(parts[j]) && l != []
    ensures l in Pieces(parts) ==> Trim(l) == l
  {
    SomesMembers(TrimmedParts(parts), l);
    if l in Pieces(parts) {
      var j :| 0 <= j < |parts| && TrimmedParts(parts)[j] == Some(l);
      TrimIdempotent(parts[j]);
    }
  }

  /** Pieces keep the order of the parts: the pieces of a concatenation concatenate. */
  lemma PiecesConcat(a: seq<string>, b: seq<string>)
    ensures Pieces(a + b) == Pieces(a) + Pieces(b)
  {
    assert TrimmedParts(a + b) == TrimmedParts(a) + TrimmedParts(b);
    SomesConcat(TrimmedParts(a), TrimmedParts(b));
  }

  /** `text.split(/\n/).map((s) => s.trim()).filter(Boolean)` (frontend/src/App.jsx:385-388). */
  function Lines(text: string): seq<string> {
    Pieces(Split(text, '\n'))
  }

  // ---------------------------------------------------------------- table pass

  /** A line containing `|` that matches `/(term|concept)/i` and `/(definition|explanation)/i`. */
  predicate IsTableHeader(l: string) {
    && '|' in l
    && (ContainsCI(l, "term") || ContainsCI(l, "concept"))
    && (ContainsCI(l, "definition") || ContainsCI(l, "explanation"))
  }

  predicate HasTable(lines: seq<string>) {
    lines != [] && (IsTableHeader(lines[0]) || HasTable(lines[1..]))
  }

  /** `/^\|?\s*-/`: an optional pipe, white space, then a hyphen (a markdown rule line). */
  predicate IsRuleLine(l: string) {
    var r := if l != [] && l[0] == '|' then l[1..] else l;
    var d := DropLeading(r, JsBlanks);
    d != [] && d[0] == '-'
  }

  /** `l.split("|").map((x) => x.trim()).filter(Boolean)` */
  function Cells(l: string): seq<string> {
    Pieces(Split(l, '|'))
  }

  /** The row of a table line: its first two cells, unless the first says "term". */
  function TableRow(l: string): Option<Row> {
    var cells := Cells(l);
    if |cells| >= 2 && !ContainsCI(cells[0], "term") then Some(Row(cells[0], cells[1])) else None
  }

  /** The row a line contributes to the table pass: none for a rule line. */
  function TableLineRow(l: string): Option<Row> {
    if IsRuleLine(l) then None else TableRow(l)
  }

  function TableCandidates(lines: seq<string>): (os: seq<Option<Row>>)
    ensures |os| == |lines| && forall i :: 0 <= i < |lines| ==> os[i] == TableLineRow(lines[i])
  {
    seq(|lines|, i requires 0 <= i < |lines| => TableLineRow(lines[i]))
  }

  /** frontend/src/App.jsx:390-407: the table pass runs only when some line is a header. */
  function TableRows(lines: seq<string>): seq<Row> {
    if HasTable(lines) then Somes(TableCandidates(lines)) else []
  }

  /**
   * With a header line present, the table rows are exactly the rows of the non-rule lines;
   * without one there are none.
   */
  lemma TableRowsMembers(lines: seq<string>, r: Row)
    ensures r in TableRows(lines) <==>
      HasTable(lines) && exists i :: 0 <= i < |lines| && !IsRuleLine(lines[i]) && TableRow(lines[i]) == Some(r)
  {
    SomesMembers(TableCandidates(lines), r);
  }

  // ---------------------------------------------------------------- delimiter pass

  /** `[–—:-]` */
  predicate IsDelimiter(c: char) {
    c == '\U{2013}' || c == '\U{2014}' || c == ':' || c == '-'
  }

  /** Every character of `s` is matched by `.`. */
  predicate NoTerminator(s: string) {
    forall k :: 0 <= k < |s| ==> !IsLineTerminator(s[k])
  }

  /**
   * `\s*(.+)$` matched against all of `r`: the start of the capture. The greedy `\s*` gives
   * back white space only to leave `.+` at least one character.
   */
  function TailStart(r: string): (t: Option<nat>)
    ensures t.Some? ==> t.value < |r| && NoTerminator(r[t.value..])
    ensures t.Some? ==> forall k :: 0 <= k < t.value ==> IsSpace(r[k])
  {
    if r == [] then None
    else
      var t := Min(SpaceRun(r, 0), |r| - 1);
      if NoTerminator(r[t..]) then Some(t) else None
  }

  /**
   * `\s*[–—:-]\s*(.+)$` matched at index `k` of `l`: the delimiter's index and the start
   * of the second capture. Only the greedy white space run can precede the delimiter,
   * since no delimiter is white space.
   */
  function MatchAt(l: string, k: nat): (m: Option<(nat, nat)>)
    requires k <= |l|
    ensures m.Some? ==> k <= m.value.0 < m.value.1 < |l| && IsDelimiter(l[m.value.0])
    ensures m.Some? ==> forall q :: k <= q < m.value.0 ==> IsSpace(l[q])
  {
    var p := k + SpaceRun(l, k);
    if p < |l| && IsDelimiter(l[p]) then
      match TailStart(l[p + 1..])
      case Some(t) => Some((p, p + 1 + t))
      case None => None
    else None
  }

  /** The lazy `^(.*?)`: try capture ends `k, k + 1, ...` while `.` can still extend it. */
  function LazyMatch(l: string, k: nat): (m: Option<(nat, nat, nat)>)
    requires k <= |l|
    ensures m.Some? ==> k <= m.value.0 <= |l| && MatchAt(l, m.value.0) == Some((m.value.1, m.value.2))
    decreases |l| - k
  {
    match MatchAt(l, k)
    case Some(pg) => Some((k, pg.0, pg.1))
    case None => if k < |l| && !IsLineTerminator(l[k]) then LazyMatch(l, k + 1) else None
  }

  /**
   * `l.match(/^(.*?)\s*[–—:-]\s*(.+)$/)`: the end of the first capture, the delimiter's
   * index, and the start of the second capture (which runs to the end of the line).
   */
  function DelimiterMatch(l: string): Option<(nat, nat, nat)> {
    LazyMatch(l, 0)
  }

  /** The first `k` characters of `l` are matched by `.`. */
  predicate FreeBelow(l: string, k: nat) {
    k <= |l| && forall q :: 0 <= q < k ==> !IsLineTerminator(l[q])
  }

  lemma FreeBelowPrefix(l: string, k: nat)
    requires k <= |l|
    ensures FreeBelow(l, k) <==> NoTerminator(l[..k])
  {
    assert forall q :: 0 <= q < k ==> l[..k][q] == l[q];
  }

  lemma NoTerminatorSlice(s: string, i: nat, j: nat)
    requires NoTerminator(s) && i <= j <= |s|
    ensures NoTerminator(s[i..j])
  {
    assert forall q :: 0 <= q < j - i ==> s[i..j][q] == s[i + q];
  }

  /**
   * The search is the regular expression's: the first capture is the shortest one, made of
   * characters `.` matches, after which the rest of the pattern matches; no match means
   * no capture end works.
   */
  lemma {:induction false} LazyMatchLeast(l: string, k: nat)
    requires FreeBelow(l, k)
    ensures LazyMatch(l, k).Some? ==> FreeBelow(l, LazyMatch(l, k).value.0)
    ensures LazyMatch(l, k).Some? ==> forall k' :: k <= k' < LazyMatch(l, k).value.0 ==> MatchAt(l, k').None?
    ensures LazyMatch(l, k).None? ==> forall k' :: k <= k' && FreeBelow(l, k') ==> MatchAt(l, k').None?
    decreases |l| - k
  {
    if MatchAt(l, k).None? && k < |l| && !IsLineTerminator(l[k]) {
      LazyMatchLeast(l, k + 1);
    }
  }

  /** A delimiter followed by at least one character starts a match on a terminator-free line. */
  lemma DelimiterMatchesAt(l: string, q: nat)
    requires NoTerminator(l) && q + 1 < |l|
    ensures IsDelimiter(l[q]) ==> MatchAt(l, q).Some?
  {
    NoTerminatorSlice(l, q + 1, |l|);
    var r := l[q + 1..];
    var t := Min(SpaceRun(r, 0), |r| - 1);
    NoTerminatorSlice(r, t, |r|);
  }

  /** On a line `.` matches throughout, the split is at the line's first delimiter. */
  lemma DelimiterAtFirst(l: string)
    requires NoTerminator(l)
    requires DelimiterMatch(l).Some?
    ensures forall q :: 0 <= q < DelimiterMatch(l).value.1 ==> !IsDelimiter(l[q])
  {
    LazyMatchLeast(l, 0);
    var (k, p, g) := DelimiterMatch(l).value;
    forall q | 0 <= q < p ensures !IsDelimiter(l[q]) {
      if q < k {
        DelimiterMatchesAt(l, q);
      }
    }
  }

  /** The replacement `/^[-*•]\s*` + `/`: a leading bullet marker and the white space after it removed. */
  function StripBullet(s: string): string {
    if s != [] && (s[0] == '-' || s[0] == '*' || s[0] == '\U{2022}') then s[1 + SpaceRun(s, 1)..] else s
  }

  /** The row of a delimiter line (frontend/src/App.jsx:409-417). */
  function DelimiterRow(l: string): (r: Option<Row>)
    ensures r.Some? ==> r.value.term != [] && r.value.explanation != [] && Utf16Len(r.value.term) < MaxTermLen
  {
    match DelimiterMatch(l)
    case None => None
    case Some((k, _, g)) =>
      if k == 0 then None
      else
        var term := Trim(StripBullet(l[..k]));
        var exp := Trim(l[g..]);
        if term != [] && exp != [] && Utf16Len(term) < MaxTermLen then Some(Row(term, exp)) else None
  }

  /**
   * A delimiter line yields a row exactly when the first capture, bullet and white space
   * removed, and the trimmed second capture are non-empty and the term is short enough;
   * the row is those two strings.
   */
  lemma DelimiterRowParts(l: string)
    ensures DelimiterRow(l).Some? <==>
      DelimiterMatch(l).Some?
      && var (k, _, g) := DelimiterMatch(l).value;
         Trim(StripBullet(l[..k])) != [] && Trim(l[g..]) != [] && Utf16Len(Trim(StripBullet(l[..k]))) < MaxTermLen
    ensures DelimiterRow(l).Some? ==>
      var (k, _, g) := DelimiterMatch(l).value;
      DelimiterRow(l).value == Row(Trim(StripBullet(l[..k])), Trim(l[g..]))
  {
    if DelimiterMatch(l).Some? && DelimiterMatch(l).value.0 == 0 {
      assert l[..0] == [];
      assert Trim(StripBullet([])) == [];
    }
  }

  /**
   * The lazy first capture is empty on a line that starts with a hyphen delimiter, so a
   * hyphen-bulleted line yields no delimiter row: the bullet stripping never applies to `-`.
   */
  lemma HyphenLineYieldsNothing(l: string)
    requires |l| >= 2 && l[0] == '-' && NoTerminator(l)
    ensures DelimiterRow(l) == None
  {
    DelimiterMatchesAt(l, 0);
  }

  function DelimiterCandidates(lines: seq<string>): (os: seq<Option<Row>>)
    ensures |os| == |lines| && forall i :: 0 <= i < |lines| ==> os[i] == DelimiterRow(lines[i])
  {
    seq(|lines|, i requires 0 <= i < |lines| => DelimiterRow(lines[i]))
  }

  function DelimiterRows(lines: seq<string>): seq<Row> {
    Somes(DelimiterCandidates(lines))
  }

  // ---------------------------------------------------------------- heading pass

  /** Number of leading `#` characters. */
  function HashRun(l: string): (n: nat)
    ensures n <= |l|
    ensures forall k :: 0 <= k < n ==> l[k] == '#'
    ensures n == |l| || l[n] != '#'
  {
    if l != [] && l[0] == '#' then 1 + HashRun(l[1..]) else 0
  }

  /** `/^#+\s/` */
  predicate IsHashHeading(l: string) {
    var h := HashRun(l);
    1 <= h < |l| && IsSpace(l[h])
  }

  /** `/^[A-Z][A-Za-z0-9\s]{1,40}$/` */
  predicate IsCapsHeading(l: string) {
    2 <= |l| <= 41 && IsUpper(l[0]) && forall k :: 1 <= k < |l| ==> IsAlnum(l[k]) || IsSpace(l[k])
  }

  predicate IsHeading(l: string) { IsHashHeading(l) || IsCapsHeading(l) }

  /** `/\w+/.test(s)` */
  predicate HasWordChar(s: string) {
    exists k :: 0 <= k < |s| && IsWordChar(s[k])
  }

  /** `l.replace(/^#+\s*` + `/, "").trim()`: leading hashes and the white space after them removed. */
  function HeadingTerm(l: string): string {
    var h := HashRun(l);
    Trim(if h == 0 then l else l[h + SpaceRun(l, h)..])
  }

  function HeadingRow(lines: seq<string>, i: nat): Option<Row>
    requires i + 1 < |lines|
  {
    if IsHeading(lines[i]) && HasWordChar(lines[i + 1]) then Some(Row(HeadingTerm(lines[i]), lines[i + 1]))
    else None
  }

  function HeadingCandidates(lines: seq<string>): (os: seq<Option<Row>>)
    requires |lines| >= 1
    ensures |os| == |lines| - 1 && forall i :: 0 <= i < |lines| - 1 ==> os[i] == HeadingRow(lines, i)
  {
    seq(|lines| - 1, i requires 0 <= i < |lines| - 1 => HeadingRow(lines, i))
  }

  /** frontend/src/App.jsx:419-428 */
  function HeadingRows(lines: seq<string>): seq<Row> {
    if |lines| < 2 then [] else Somes(HeadingCandidates(lines))
  }

  /**
   * Heading rows are exactly the pairs (heading term of line `i`, line `i + 1`) where line
   * `i` is a heading and line `i + 1` holds a word character.
   */
  lemma HeadingRowsMembers(lines: seq<string>, r: Row)
    ensures r in HeadingRows(lines) <==>
      exists i :: 0 <= i < |lines| - 1 && IsHeading(lines[i]) && HasWordChar(lines[i + 1]) &&
        r == Row(HeadingTerm(lines[i]), lines[i + 1])
  {
    if |lines| >= 2 {
      var os := HeadingCandidates(lines);
      SomesMembers(os, r);
      if r in HeadingRows(lines) {
        var i :| 0 <= i < |os| && os[i] == Some(r);
        assert HeadingRow(lines, i) == Some(r);
      }
      if exists i :: 0 <= i < |lines| - 1 && IsHeading(lines[i]) && HasWordChar(lines[i + 1]) &&
          r == Row(HeadingTerm(lines[i]), lines[i + 1]) {
        var i :| 0 <= i < |lines| - 1 && IsHeading(lines[i]) && HasWordChar(lines[i + 1]) &&
          r == Row(HeadingTerm(lines[i]), lines[i + 1]);
        assert os[i] == Some(r);
      }
    }
  }

  // ---------------------------------------------------------------- de-duplication

  function JsKey(r: Row): string { NormalizeTerm(r.term) }

  /** `byKey.set(k, r)` when the key is new or `r` has a strictly longer explanation (in UTF-16 code units). */
  function DedupStep(t: Table, r: Row): Table {
    Offer(t, JsKey(r), r, r, Utf16Units)
  }

  function DedupTable(rows: seq<Row>): (t: Table)
    ensures WellFormed(t)
    ensures forall k :: k in t.byKey ==> JsKey(t.byKey[k]) == k
  {
    if rows == [] then Table([], map[])
    else DedupStep(DedupTable(rows[..|rows| - 1]), rows[|rows| - 1])
  }

  /** `Array.from(byKey.values())` */
  function Dedup(rows: seq<Row>): seq<Row> {
    Values(DedupTable(rows))
  }

  function Keys(rows: seq<Row>): (ks: seq<string>)
    ensures |ks| == |rows| && forall i :: 0 <= i < |rows| ==> ks[i] == JsKey(rows[i])
  {
    seq(|rows|, i requires 0 <= i < |rows| => JsKey(rows[i]))
  }

  /** The kept rows follow the order in which their keys first occur. */
  lemma {:induction false} DedupOrder(rows: seq<Row>)
    ensures DedupTable(rows).order == FirstOccurrences(Keys(rows))
  {
    if rows != [] {
      var pre := rows[..|rows| - 1];
      DedupOrder(pre);
      assert Keys(rows)[..|rows| - 1] == Keys(pre);
    }
  }

  /** Row `rows[m]` is a candidate for its key that no earlier candidate matches or beats. */
  ghost predicate FirstLongest(rows: seq<Row>, m: int) {
    0 <= m < |rows| &&
    forall j :: 0 <= j < m && JsKey(rows[j]) == JsKey(rows[m]) ==>
      Utf16Len(rows[j].explanation) < Utf16Len(rows[m].explanation)
  }

  /** Every candidate's key is stored, with an explanation at least as long as the candidate's. */
  ghost predicate Dominates(rows: seq<Row>, t: Table) {
    forall j :: 0 <= j < |rows| ==>
      JsKey(rows[j]) in t.byKey && Utf16Len(rows[j].explanation) <= Utf16Len(t.byKey[JsKey(rows[j])].explanation)
  }

  /** Every stored row is a first longest candidate. */
  ghost predicate Chosen(rows: seq<Row>, t: Table) {
    forall k :: k in t.byKey ==> exists m :: FirstLongest(rows, m) && rows[m] == t.byKey[k]
  }

  lemma FirstLongestExtend(rows: seq<Row>, m: int)
    requires rows != [] && FirstLongest(rows[..|rows| - 1], m)
    ensures FirstLongest(rows, m)
  {
    assert forall j :: 0 <= j <= m ==> rows[..|rows| - 1][j] == rows[j];
  }

  /** One more candidate keeps every candidate's key stored with a long enough explanation. */
  lemma DominatesStep(rows: seq<Row>, t: Table, u: Table)
    requires rows != [] && Dominates(rows[..|rows| - 1], t) && u == DedupStep(t, rows[|rows| - 1])
    ensures Dominates(rows, u)
  {
    var pre, x := rows[..|rows| - 1], rows[|rows| - 1];
    if JsKey(x) in t.byKey {
      OfferReplaces(t, JsKey(x), x, x, Utf16Units);
    }
    forall j | 0 <= j < |rows|
      ensures JsKey(rows[j]) in u.byKey
      ensures Utf16Len(rows[j].explanation) <= Utf16Len(u.byKey[JsKey(rows[j])].explanation)
    {
      var k := JsKey(rows[j]);
      if j < |pre| {
        assert rows[j] == pre[j];
        assert k in t.byKey && Utf16Len(rows[j].explanation) <= Utf16Len(t.byKey[k].explanation);
        if k != JsKey(x) {
          assert u.byKey[k] == t.byKey[k];
        }
      } else {
        assert j == |rows| - 1;
      }
    }
  }

  lemma {:induction false} DedupDominates(rows: seq<Row>)
    ensures Dominates(rows, DedupTable(rows))
  {
    if rows != [] {
      DedupDominates(rows[..|rows| - 1]);
      DominatesStep(rows, DedupTable(rows[..|rows| - 1]), DedupTable(rows));
    }
  }

  /** A row stored by the last step is a first longest candidate. */
  lemma ChosenLast(rows: seq<Row>, t: Table)
    requires rows != [] && Dominates(rows[..|rows| - 1], t)
    requires JsKey(rows[|rows| - 1]) !in t.byKey ||
      Utf16Len(rows[|rows| - 1].explanation) > Utf16Len(t.byKey[JsKey(rows[|rows| - 1])].explanation)
    ensures FirstLongest(rows, |rows| - 1)
  {
    var pre := rows[..|rows| - 1];
    forall j | 0 <= j < |pre| && JsKey(rows[j]) == JsKey(rows[|rows| - 1])
      ensures Utf16Len(rows[j].explanation) < Utf16Len(rows[|rows| - 1].explanation)
    {
      assert rows[j] == pre[j];
    }
  }

  /** A row kept from before the last step is still a first longest candidate. */
  lemma ChosenKept(rows: seq<Row>, t: Table, k: string)
    requires rows != [] && Chosen(rows[..|rows| - 1], t) && k in t.byKey
    ensures exists m :: FirstLongest(rows, m) && rows[m] == t.byKey[k]
  {
    var pre := rows[..|rows| - 1];
    var m :| FirstLongest(pre, m) && pre[m] == t.byKey[k];
    FirstLongestExtend(rows, m);
    assert rows[m] == pre[m];
  }

  /** An entry the last step changed or added holds the last row, a first longest candidate. */
  lemma ChosenNew(rows: seq<Row>, t: Table, u: Table, k: string)
    requires rows != [] && u == DedupStep(t, rows[|rows| - 1]) && Dominates(rows[..|rows| - 1], t)
    requires k in u.byKey && !(k in t.byKey && u.byKey[k] == t.byKey[k])
    ensures FirstLongest(rows, |rows| - 1) && rows[|rows| - 1] == u.byKey[k]
  {
    var x := rows[|rows| - 1];
    assert k == JsKey(x);
    if k in t.byKey {
      OfferReplaces(t, k, x, x, Utf16Units);
    }
    ChosenLast(rows, t);
  }

  /** One more candidate keeps every stored row a first longest candidate. */
  lemma ChosenStep(rows: seq<Row>, t: Table, u: Table)
    requires rows != [] && u == DedupStep(t, rows[|rows| - 1])
    requires Chosen(rows[..|rows| - 1], t) && Dominates(rows[..|rows| - 1], t)
    ensures Chosen(rows, u)
  {
    forall k | k in u.byKey ensures exists m :: FirstLongest(rows, m) && rows[m] == u.byKey[k] {
      if k in t.byKey && u.byKey[k] == t.byKey[k] {
        ChosenKept(rows, t, k);
      } else {
        ChosenNew(rows, t, u, k);
      }
    }
  }

  lemma {:induction false} DedupChosen(rows: seq<Row>)
    ensures Chosen(rows, DedupTable(rows))
  {
    if rows != [] {
      DedupChosen(rows[..|rows| - 1]);
      DedupDominates(rows[..|rows| - 1]);
      ChosenStep(rows, DedupTable(rows[..|rows| - 1]), DedupTable(rows));
    }
  }

  /** The kept rows' normalized terms are pairwise distinct. */
  lemma DedupDistinct(rows: seq<Row>)
    ensures forall i, j :: 0 <= i < j < |Dedup(rows)| ==> JsKey(Dedup(rows)[i]) != JsKey(Dedup(rows)[j])
  {
    var t := DedupTable(rows);
    assert forall i :: 0 <= i < |Dedup(rows)| ==> JsKey(Dedup(rows)[i]) == t.order[i];
  }

  /** Every candidate's key is kept, with an explanation at least as long as the candidate's. */
  lemma DedupLongest(rows: seq<Row>)
    ensures forall j :: 0 <= j < |rows| ==> exists i ::
      0 <= i < |Dedup(rows)| && JsKey(Dedup(rows)[i]) == JsKey(rows[j]) &&
      Utf16Len(rows[j].explanation) <= Utf16Len(Dedup(rows)[i].explanation)
  {
    var t := DedupTable(rows);
    var d := Dedup(rows);
    DedupDominates(rows);
    forall j | 0 <= j < |rows| ensures exists i ::
      0 <= i < |d| && JsKey(d[i]) == JsKey(rows[j]) && Utf16Len(rows[j].explanation) <= Utf16Len(d[i].explanation)
    {
      var k := JsKey(rows[j]);
      var i :| 0 <= i < |t.order| && t.order[i] == k;
      assert d[i] == t.byKey[k];
    }
  }

  /**
   * Each kept row is a candidate that no earlier candidate with its key matches in length:
   * with `DedupLongest`, the first longest candidate wins ties.
   */
  lemma DedupFirstWins(rows: seq<Row>)
    ensures forall i :: 0 <= i < |Dedup(rows)| ==> exists m :: FirstLongest(rows, m) && rows[m] == Dedup(rows)[i]
  {
    var t := DedupTable(rows);
    var d := Dedup(rows);
    DedupChosen(rows);
    forall i | 0 <= i < |d| ensures exists m :: FirstLongest(rows, m) && rows[m] == d[i] {
      var k := t.order[i];
      assert k in t.byKey;
      var m :| FirstLongest(rows, m) && rows[m] == t.byKey[k];
      assert d[i] == t.byKey[k];
    }
  }

  /** The kept rows follow the order in which their keys first occur among the candidates. */
  lemma DedupFirstOccurrence(rows: seq<Row>)
    ensures forall i :: 0 <= i < |Dedup(rows)| ==> JsKey(Dedup(rows)[i]) in Keys(rows)
    ensures forall i, j :: 0 <= i < j < |Dedup(rows)| ==>
      FirstPos(Keys(rows), JsKey(Dedup(rows)[i])) < FirstPos(Keys(rows), JsKey(Dedup(rows)[j]))
  {
    var t := DedupTable(rows);
    var d := Dedup(rows);
    DedupOrder(rows);
    var fo := FirstOccurrences(Keys(rows));
    FirstOccurrencesSpec(Keys(rows));
    forall i | 0 <= i < |d| ensures JsKey(d[i]) == fo[i] {
      assert d[i] == t.byKey[t.order[i]];
    }
  }

  /** `.slice(0, 500)` */
  function Cap(rows: seq<Row>): (r: seq<Row>)
    ensures |r| <= MaxRows && |r| <= |rows| && r == rows[..|r|]
    ensures |rows| <= MaxRows ==> r == rows
  {
    rows[..Min(MaxRows, |rows|)]
  }

  /** All candidate rows, in pass order. */
  function Candidates(lines: seq<string>): seq<Row> {
    TableRows(lines) + DelimiterRows(lines) + HeadingRows(lines)
  }

  /** `generateCardsLocally(text)` */
  function LocalCards(text: string): seq<Row> {
    Cap(Dedup(Candidates(Lines(text))))
  }

  /** The extractor's output has at most 500 rows with pairwise distinct normalized terms. */
  lemma LocalCardsDistinct(text: string)
    ensures |LocalCards(text)| <= MaxRows
    ensures forall i, j :: 0 <= i < j < |LocalCards(text)| ==>
      JsKey(LocalCards(text)[i]) != JsKey(LocalCards(text)[j])
  {
    var d := Dedup(Candidates(Lines(text)));
    DedupDistinct(Candidates(Lines(text)));
    var c := LocalCards(text);
    assert c == d[..|c|];
    forall i, j | 0 <= i < j < |c| ensures JsKey(c[i]) != JsKey(c[j]) {
      assert c[i] == d[i] && c[j] == d[j];
    }
  }

  /** The `rows.push` loop of one pass. */
  method CollectRows(os: seq<Option<Row>>) returns (rows: seq<Row>)
    ensures rows == Somes(os)
  {
    rows := [];
    var i := 0;
    while i < |os|
      invariant 0 <= i <= |os|
      invariant rows == Somes(os[..i])
    {
      SomesStep(os, i);
      if os[i].Some? {
        rows := rows + [os[i].value];
      }
      i := i + 1;
    }
    assert os[..i] == os;
  }

  /** The `byKey` map loop and `Array.from(byKey.values())`. */
  method DedupByKey(rows: seq<Row>) returns (values: seq<Row>)
    ensures values == Dedup(rows)
  {
    var byKey := Table([], map[]);
    var i := 0;
    while i < |rows|
      invariant 0 <= i <= |rows|
      invariant byKey == DedupTable(rows[..i])
    {
      assert rows[..i + 1][..i] == rows[..i];
      var r := rows[i];
      var k := NormalizeTerm(r.term);
      if k !in byKey.byKey || Utf16Len(r.explanation) > Utf16Len(byKey.byKey[k].explanation) {
        byKey := Put(byKey, k, r);
      }
      i := i + 1;
    }
    assert rows[..i] == rows;
    values := Values(byKey);
  }

  /** The three passes of frontend/src/App.jsx:390-428, each filling `rows` in turn. */
  method CandidateRows(lines: seq<string>) returns (rows: seq<Row>)
    ensures rows == Candidates(lines)
  {
    var tableRows: seq<Row> := [];
    if HasTable(lines) {
      tableRows := CollectRows(TableCandidates(lines));
    }
    var delimiterRows := CollectRows(DelimiterCandidates(lines));
    var headingRows: seq<Row> := [];
    if |lines| >= 2 {
      headingRows := CollectRows(HeadingCandidates(lines));
    }
    assert tableRows == TableRows(lines);
    assert headingRows == HeadingRows(lines);
    rows := tableRows + delimiterRows + headingRows;
  }

  /** frontend/src/App.jsx:382-438 */
  method GenerateCardsLocally(text: string) returns (cards: seq<Row>)
    ensures cards == LocalCards(text)
  {
    var rows := CandidateRows(Lines(text));
    var values := DedupByKey(rows);
    cards := values[..Min(MaxRows, |values|)];
  }
}
