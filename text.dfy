/**
 * Character classes and string helpers shared by the frontend (JavaScript) and the
 * backend (Python). Character classes are the ASCII ones: JavaScript's `\s` and `trim`,
 * Python's `str.strip` and `str.split`, `toLowerCase`/`lower` on ASCII letters.
 */
module Text {

  /** JavaScript's `\s` and the characters `String.prototype.trim` removes (ASCII part). */
  predicate IsSpace(c: char) {
    c == ' ' || c == '\t' || c == '\n' || c == '\r' || c == '\U{000B}' || c == '\U{000C}'
  }

  /** Python's `str.isspace` on ASCII: JavaScript's set plus the four separators 0x1C-0x1F. */
  predicate IsPySpace(c: char) {
    IsSpace(c) || ('\U{001C}' <= c <= '\U{001F}')
  }

  /** The characters a JavaScript `.` does not match. */
  predicate IsLineTerminator(c: char) {
    c == '\n' || c == '\r' || c == '\U{2028}' || c == '\U{2029}'
  }

  predicate IsUpper(c: char) { 'A' <= c <= 'Z' }

  predicate IsDigit(c: char) { '0' <= c <= '9' }

  /** `[A-Za-z0-9]` */
  predicate IsAlnum(c: char) { IsUpper(c) || ('a' <= c <= 'z') || IsDigit(c) }

  /** `\w`: `[A-Za-z0-9_]` */
  predicate IsWordChar(c: char) { IsAlnum(c) || c == '_' }

  /** The characters a normalized term keeps: `[a-z0-9]`. */
  predicate IsKeyChar(c: char) { ('a' <= c <= 'z') || IsDigit(c) }

  function LowerChar(c: char): char {
    if IsUpper(c) then (c as int + 32) as char else c
  }

  /** `toLowerCase()` / `lower()` restricted to ASCII letters. */
  function Lower(s: string): string {
    seq(|s|, k requires 0 <= k < |s| => LowerChar(s[k]))
  }

  /**
   * How a length is counted: JavaScript's `.length` counts UTF-16 code units, so a
   * character above U+FFFF (a surrogate pair) counts twice; Python's `len` counts code points.
   */
  datatype Counting = Utf16Units | CodePoints

  /** JavaScript's `s.length`. */
  /** The UTF-16 code units of one character: two for a surrogate pair. */
  function CharUnits(c: char): nat {
    if c as int > 0xFFFF then 2 else 1
  }

  /** The code units of `s[i..]`. */
  function UnitsFrom(s: string, i: nat): nat
    requires i <= |s|
    decreases |s| - i
  {
    if i == |s| then 0 else CharUnits(s[i]) + UnitsFrom(s, i + 1)
  }

  function Utf16Len(s: string): nat {
    UnitsFrom(s, 0)
  }

  function Length(s: string, c: Counting): nat {
    match c
    case Utf16Units => Utf16Len(s)
    case CodePoints => |s|
  }

  lemma {:induction false} UnitsFromBounds(s: string, i: nat)
    requires i <= |s|
    ensures |s| - i <= UnitsFrom(s, i) <= 2 * (|s| - i)
    decreases |s| - i
  {
    if i < |s| {
      UnitsFromBounds(s, i + 1);
    }
  }

  /** A code-unit length lies between the number of characters and twice that number. */
  lemma Utf16LenBounds(s: string)
    ensures |s| <= Utf16Len(s) <= 2 * |s|
  {
    UnitsFromBounds(s, 0);
  }

  lemma {:induction false} UnitsFromBmp(s: string, i: nat)
    requires i <= |s|
    ensures UnitsFrom(s, i) == |s| - i <==> forall k :: i <= k < |s| ==> s[k] as int <= 0xFFFF
    decreases |s| - i
  {
    if i < |s| {
      UnitsFromBmp(s, i + 1);
      UnitsFromBounds(s, i + 1);
    }
  }

  /** The two counts agree exactly when no character lies above U+FFFF. */
  lemma Utf16LenBmp(s: string)
    ensures Utf16Len(s) == |s| <==> forall k :: 0 <= k < |s| ==> s[k] as int <= 0xFFFF
  {
    UnitsFromBmp(s, 0);
  }

  lemma {:induction false} UnitsFromShift(a: string, b: string, j: nat)
    requires j <= |b|
    ensures UnitsFrom(a + b, |a| + j) == UnitsFrom(b, j)
    decreases |b| - j
  {
    if j < |b| {
      assert (a + b)[|a| + j] == b[j];
      UnitsFromShift(a, b, j + 1);
    }
  }

  lemma {:induction false} UnitsFromConcat(a: string, b: string, i: nat)
    requires i <= |a|
    ensures UnitsFrom(a + b, i) == UnitsFrom(a, i) + UnitsFrom(b, 0)
    decreases |a| - i
  {
    if i < |a| {
      assert (a + b)[i] == a[i];
      UnitsFromConcat(a, b, i + 1);
    } else {
      UnitsFromShift(a, b, 0);
    }
  }

  /** Code-unit lengths add up over concatenation. */
  lemma Utf16LenConcat(a: string, b: string)
    ensures Utf16Len(a + b) == Utf16Len(a) + Utf16Len(b)
  {
    UnitsFromConcat(a, b, 0);
  }

  /** Which white space a strip removes: JavaScript's `trim` or Python's `strip`. */
  datatype Blanks = JsBlanks | PyBlanks

  predicate IsBlank(ws: Blanks, c: char) {
    match ws
    case JsBlanks => IsSpace(c)
    case PyBlanks => IsPySpace(c)
  }

  /** Removes the leading characters that are blanks of `ws`. */
  function DropLeading(s: string, ws: Blanks): (r: string)
    ensures |r| <= |s|
    ensures forall k :: 0 <= k < |s| - |r| ==> IsBlank(ws, s[k])
    ensures r != [] ==> !IsBlank(ws, r[0])
  {
    if s != [] && IsBlank(ws, s[0]) then DropLeading(s[1..], ws) else s
  }

  /** What `DropLeading` leaves is a suffix of its input. */
  lemma {:induction false} DropLeadingSuffix(s: string, ws: Blanks)
    ensures DropLeading(s, ws) == s[|s| - |DropLeading(s, ws)|..]
  {
    if s != [] && IsBlank(ws, s[0]) {
      DropLeadingSuffix(s[1..], ws);
    }
  }

  /** Removes the trailing characters that are blanks of `ws`. */
  function DropTrailing(s: string, ws: Blanks): (r: string)
    ensures |r| <= |s|
    ensures forall k :: |r| <= k < |s| ==> IsBlank(ws, s[k])
    ensures r != [] ==> !IsBlank(ws, r[|r| - 1])
  {
    if s != [] && IsBlank(ws, s[|s| - 1]) then DropTrailing(s[..|s| - 1], ws) else s
  }

  /** What `DropTrailing` leaves is a prefix of its input. */
  lemma {:induction false} DropTrailingPrefix(s: string, ws: Blanks)
    ensures DropTrailing(s, ws) == s[..|DropTrailing(s, ws)|]
  {
    if s != [] && IsBlank(ws, s[|s| - 1]) {
      DropTrailingPrefix(s[..|s| - 1], ws);
    }
  }

  /** Number of `\s` characters starting at index `i`. */
  function SpaceRun(t: string, i: nat): (n: nat)
    requires i <= |t|
    ensures i + n <= |t|
    ensures forall k :: i <= k < i + n ==> IsSpace(t[k])
    ensures i + n == |t| || !IsSpace(t[i + n])
    decreases |t| - i
  {
    if i < |t| && IsSpace(t[i]) then 1 + SpaceRun(t, i + 1) else 0
  }

  /** JavaScript's `String.prototype.trim`. */
  function Trim(s: string): string {
    DropTrailing(DropLeading(s, JsBlanks), JsBlanks)
  }

  /** Python's `str.strip()` with no argument. */
  function PyStrip(s: string): string {
    DropTrailing(DropLeading(s, PyBlanks), PyBlanks)
  }

  /** A string with no `ws` character at either end is left alone by stripping. */
  lemma StripStable(s: string, ws: Blanks)
    requires s != [] ==> !IsBlank(ws, s[0]) && !IsBlank(ws, s[|s| - 1])
    ensures DropTrailing(DropLeading(s, ws), ws) == s
  {
  }

  /** Trimming is idempotent, and a trimmed string has no white space at either end. */
  lemma TrimIdempotent(s: string)
    ensures Trim(Trim(s)) == Trim(s)
    ensures Trim(s) != [] ==> !IsSpace(Trim(s)[0]) && !IsSpace(Trim(s)[|Trim(s)| - 1])
  {
    var d := DropLeading(s, JsBlanks);
    var t := DropTrailing(d, JsBlanks);
    DropTrailingPrefix(d, JsBlanks);
    if t != [] {
      assert t[0] == d[0];
    }
    StripStable(t, JsBlanks);
  }

  /** Python's strip is idempotent, and a stripped string has no white space at either end. */
  lemma PyStripIdempotent(s: string)
    ensures PyStrip(PyStrip(s)) == PyStrip(s)
    ensures PyStrip(s) != [] ==> !IsPySpace(PyStrip(s)[0]) && !IsPySpace(PyStrip(s)[|PyStrip(s)| - 1])
  {
    var d := DropLeading(s, PyBlanks);
    var t := DropTrailing(d, PyBlanks);
    DropTrailingPrefix(d, PyBlanks);
    if t != [] {
      assert t[0] == d[0];
    }
    StripStable(t, PyBlanks);
  }

  /**
   * `s.toLowerCase().replace(/[^a-z0-9]/g, "")` (frontend `normalizeTerm`), which is also
   * the body of the backend's `_norm_key` once `None` has become "".
   */
  function NormalizeTerm(s: string): (r: string)
    ensures |r| <= |s|
    ensures forall k :: 0 <= k < |r| ==> IsKeyChar(r[k])
  {
    if s == [] then []
    else
      var c := LowerChar(s[0]);
      (if IsKeyChar(c) then [c] else []) + NormalizeTerm(s[1..])
  }

  lemma {:induction false} NormalizeConcat(a: string, b: string)
    ensures NormalizeTerm(a + b) == NormalizeTerm(a) + NormalizeTerm(b)
  {
    if a == [] {
      assert a + b == b;
    } else {
      assert (a + b)[0] == a[0];
      assert (a + b)[1..] == a[1..] + b;
      NormalizeConcat(a[1..], b);
    }
  }

  /** A string made only of key characters is its own normal form. */
  lemma {:induction false} NormalizeKeyChars(s: string)
    requires forall k :: 0 <= k < |s| ==> IsKeyChar(s[k])
    ensures NormalizeTerm(s) == s
  {
    if s != [] {
      NormalizeKeyChars(s[1..]);
    }
  }

  /** Normalization is idempotent. */
  lemma NormalizeIdempotent(s: string)
    ensures NormalizeTerm(NormalizeTerm(s)) == NormalizeTerm(s)
  {
    NormalizeKeyChars(NormalizeTerm(s));
  }

  /** White space contributes nothing to a normalized term. */
  lemma {:induction false} NormalizeSpaces(s: string)
    requires forall k :: 0 <= k < |s| ==> IsPySpace(s[k])
    ensures NormalizeTerm(s) == []
  {
    if s != [] {
      NormalizeSpaces(s[1..]);
    }
  }

  /** Leading white space contributes nothing to the normalized term. */
  lemma {:induction false} NormalizeDropPrefix(s: string, n: nat)
    requires n <= |s|
    requires forall k :: 0 <= k < n ==> IsPySpace(s[k])
    ensures NormalizeTerm(s[n..]) == NormalizeTerm(s)
  {
    if n > 0 {
      assert NormalizeTerm(s) == NormalizeTerm(s[1..]) by {
        assert IsPySpace(s[0]);
      }
      assert s[1..][n - 1..] == s[n..];
      NormalizeDropPrefix(s[1..], n - 1);
    }
  }

  /** Dropping leading white space keeps the normalized term. */
  lemma NormalizeDropLeading(s: string, ws: Blanks)
    ensures NormalizeTerm(DropLeading(s, ws)) == NormalizeTerm(s)
  {
    DropLeadingSuffix(s, ws);
    NormalizeDropPrefix(s, |s| - |DropLeading(s, ws)|);
  }

  /** Dropping trailing white space keeps the normalized term. */
  lemma {:induction false} NormalizeDropTrailing(s: string, ws: Blanks)
    ensures NormalizeTerm(DropTrailing(s, ws)) == NormalizeTerm(s)
  {
    if s != [] && IsBlank(ws, s[|s| - 1]) {
      var init := s[..|s| - 1];
      NormalizeDropTrailing(init, ws);
      assert s == init + [s[|s| - 1]];
      NormalizeConcat(init, [s[|s| - 1]]);
      NormalizeSpaces([s[|s| - 1]]);
    }
  }

  /** Trimming keeps the normalized term. */
  lemma NormalizeTrim(s: string)
    ensures NormalizeTerm(Trim(s)) == NormalizeTerm(s)
  {
    NormalizeDropLeading(s, JsBlanks);
    NormalizeDropTrailing(DropLeading(s, JsBlanks), JsBlanks);
  }

  /** Python's strip keeps the normalized term. */
  lemma NormalizePyStrip(s: string)
    ensures NormalizeTerm(PyStrip(s)) == NormalizeTerm(s)
  {
    NormalizeDropLeading(s, PyBlanks);
    NormalizeDropTrailing(DropLeading(s, PyBlanks), PyBlanks);
  }

  /** `s.split(sep)` for a one-character separator: the pieces between separators. */
  function Split(s: string, sep: char): (r: seq<string>)
    ensures |r| >= 1
    ensures forall i :: 0 <= i < |r| ==> sep !in r[i]
  {
    if s == [] then [[]]
    else
      var rest := Split(s[1..], sep);
      if s[0] == sep then [[]] + rest else [[s[0]] + rest[0]] + rest[1..]
  }

  /** `parts.join(sep)` */
  function Join(parts: seq<string>, sep: string): string {
    if parts == [] then []
    else if |parts| == 1 then parts[0]
    else parts[0] + sep + Join(parts[1..], sep)
  }

  /** Joining the pieces of a split with its separator gives back the string. */
  lemma {:induction false} JoinSplit(s: string, sep: char)
    ensures Join(Split(s, sep), [sep]) == s
  {
    if s != [] {
      var rest := Split(s[1..], sep);
      JoinSplit(s[1..], sep);
      if s[0] == sep {
        assert ([[]] + rest)[1..] == rest;
      } else if |rest| > 1 {
        assert ([[s[0]] + rest[0]] + rest[1..])[1..] == rest[1..];
      }
    }
  }

  /** `p` is a prefix of `s`. */
  predicate IsPrefix(p: string, s: string) {
    |p| <= |s| && s[..|p|] == p
  }

  /** `s.includes(sub)` / Python's `sub in s`. */
  predicate Contains(s: string, sub: string)
    decreases |s|
  {
    IsPrefix(sub, s) || (s != [] && Contains(s[1..], sub))
  }

  /** `sub` occurs in `s` starting at index `i`. */
  predicate OccursAt(s: string, sub: string, i: int) {
    0 <= i <= |s| - |sub| && s[i..i + |sub|] == sub
  }

  /** `Contains` holds exactly when `sub` occurs at some index of `s`. */
  lemma {:induction false} ContainsIff(s: string, sub: string)
    ensures Contains(s, sub) <==> exists i :: OccursAt(s, sub, i)
  {
    if IsPrefix(sub, s) {
      assert OccursAt(s, sub, 0);
    } else if s != [] {
      ContainsIff(s[1..], sub);
      if Contains(s[1..], sub) {
        var i :| OccursAt(s[1..], sub, i);
        assert s[i + 1..i + 1 + |sub|] == s[1..][i..i + |sub|];
        assert OccursAt(s, sub, i + 1);
      }
      if exists i :: OccursAt(s, sub, i) {
        var i :| OccursAt(s, sub, i);
        assert i != 0;
        {
          assert s[1..][i - 1..i - 1 + |sub|] == s[i..i + |sub|];
          assert OccursAt(s[1..], sub, i - 1);
        }
      }
    }
  }

  /** Case-insensitive test against a lower-case needle, as in `/term/i.test(s)`. */
  predicate ContainsCI(s: string, lowerSub: string) {
    Contains(Lower(s), lowerSub)
  }

  /** The longest prefix of `s` without Python white space. */
  function TakeWord(s: string): (r: string)
    ensures |r| <= |s| && r == s[..|r|]
    ensures forall k :: 0 <= k < |r| ==> !IsPySpace(r[k])
    ensures |r| < |s| ==> IsPySpace(s[|r|])
  {
    if s == [] || IsPySpace(s[0]) then [] else [s[0]] + TakeWord(s[1..])
  }

  /** Python's `s.split()` with no argument: the maximal runs of non-white-space. */
  predicate IsWord(w: string) {
    w != [] && forall k :: 0 <= k < |w| ==> !IsPySpace(w[k])
  }

  function Words(s: string): seq<string>
    decreases |s|
  {
    var t := DropLeading(s, PyBlanks);
    if t == [] then []
    else
      var w := TakeWord(t);
      [w] + Words(t[|w|..])
  }

  /** Every piece is a non-empty run of non-white-space. */
  lemma {:induction false} WordsAreWords(s: string)
    ensures forall i :: 0 <= i < |Words(s)| ==> IsWord(Words(s)[i])
    decreases |s|
  {
    var t := DropLeading(s, PyBlanks);
    if t != [] {
      var w := TakeWord(t);
      WordsAreWords(t[|w|..]);
      assert Words(s) == [w] + Words(t[|w|..]);
    }
  }

  /** A string of white space only has no words. */
  lemma WordsOfBlanks(s: string)
    requires forall k :: 0 <= k < |s| ==> IsPySpace(s[k])
    ensures Words(s) == []
  {
    DropLeadingSuffix(s, PyBlanks);
  }

  /** A single word splits into itself. */
  lemma WordsOfWord(w: string)
    requires IsWord(w)
    ensures Words(w) == [w]
  {
    assert DropLeading(w, PyBlanks) == w;
    assert TakeWord(w) == w;
    assert w[|w|..] == [];
  }

  /** Taking a word stops at a blank that follows the string. */
  lemma {:induction false} TakeWordAppend(a: string, y: string)
    requires y != [] && IsPySpace(y[0])
    ensures TakeWord(a + y) == TakeWord(a)
  {
    if a == [] {
      assert a + y == y;
    } else {
      assert (a + y)[0] == a[0] && (a + y)[1..] == a[1..] + y;
      TakeWordAppend(a[1..], y);
    }
  }

  /** A leading blank contributes no word. */
  lemma WordsBlankHead(s: string)
    requires s != [] && IsPySpace(s[0])
    ensures Words(s) == Words(s[1..])
  {
    assert DropLeading(s, PyBlanks) == DropLeading(s[1..], PyBlanks);
  }

  /** The split law once the words after the first one of `a` are known to split. */
  lemma WordsSplitHead(a: string, c: char, b: string)
    requires IsPySpace(c) && a != [] && !IsPySpace(a[0])
    requires Words(a[|TakeWord(a)|..] + [c] + b) == Words(a[|TakeWord(a)|..]) + Words(b)
    ensures Words(a + [c] + b) == Words(a) + Words(b)
  {
    var y := [c] + b;
    assert a + [c] + b == a + y;
    TakeWordAppend(a, y);
    var w := TakeWord(a);
    DropAppend(a, y, |w|);
    assert a[|w|..] + y == a[|w|..] + [c] + b;
    WordsWordHead(a + y);
    WordsWordHead(a);
  }

  lemma DropAppend(a: string, y: string, n: nat)
    requires n <= |a|
    ensures (a + y)[n..] == a[n..] + y
  {
  }

  /** A string that starts with a non-blank starts with its first word. */
  lemma WordsWordHead(s: string)
    requires s != [] && !IsPySpace(s[0])
    ensures Words(s) == [TakeWord(s)] + Words(s[|TakeWord(s)|..])
  {
    assert DropLeading(s, PyBlanks) == s;
  }

  /** A blank splits the words: those before it, then those after it. */
  lemma {:induction false} WordsSplit(a: string, c: char, b: string)
    requires IsPySpace(c)
    ensures Words(a + [c] + b) == Words(a) + Words(b)
    decreases |a|
  {
    var s := a + [c] + b;
    if a == [] {
      assert s[1..] == b;
      WordsBlankHead(s);
    } else if IsPySpace(a[0]) {
      assert s[1..] == a[1..] + [c] + b;
      WordsBlankHead(s);
      WordsBlankHead(a);
      WordsSplit(a[1..], c, b);
    } else {
      WordsSplit(a[|TakeWord(a)|..], c, b);
      WordsSplitHead(a, c, b);
    }
  }

  /** The characters of `s` that are not Python white space, in order. */
  function NonBlanks(s: string): string {
    if s == [] then [] else (if IsPySpace(s[0]) then [] else [s[0]]) + NonBlanks(s[1..])
  }

  lemma {:induction false} NonBlanksConcat(a: string, b: string)
    ensures NonBlanks(a + b) == NonBlanks(a) + NonBlanks(b)
  {
    if a == [] {
      assert a + b == b;
    } else {
      assert (a + b)[0] == a[0] && (a + b)[1..] == a[1..] + b;
      NonBlanksConcat(a[1..], b);
    }
  }

  /** Dropping leading blanks keeps the non-blank characters. */
  lemma {:induction false} NonBlanksDropLeading(s: string)
    ensures NonBlanks(DropLeading(s, PyBlanks)) == NonBlanks(s)
  {
    if s != [] && IsPySpace(s[0]) {
      NonBlanksDropLeading(s[1..]);
    }
  }

  /** A string without blanks is its own non-blank part. */
  lemma {:induction false} NonBlanksOfWord(w: string)
    requires forall k :: 0 <= k < |w| ==> !IsPySpace(w[k])
    ensures NonBlanks(w) == w
  {
    if w != [] {
      NonBlanksOfWord(w[1..]);
    }
  }

  lemma JoinEmptyCons(w: string, ws: seq<string>)
    ensures Join([w] + ws, []) == w + Join(ws, [])
  {
    if ws != [] {
      assert ([w] + ws)[1..] == ws;
    }
  }

  /** The words laid end to end are the non-blank characters of the string: nothing is lost. */
  lemma {:induction false} WordsConcat(s: string)
    ensures Join(Words(s), []) == NonBlanks(s)
    decreases |s|
  {
    var t := DropLeading(s, PyBlanks);
    NonBlanksDropLeading(s);
    if t == [] {
      assert Words(s) == [];
    } else {
      var w := TakeWord(t);
      var rest := t[|w|..];
      assert Words(s) == [w] + Words(rest);
      WordsConcat(rest);
      assert t == w + rest;
      NonBlanksConcat(w, rest);
      NonBlanksOfWord(w);
      JoinEmptyCons(w, Words(rest));
    }
  }

  /** Position `i` of `s` begins a maximal run of non-white-space. */
  predicate RunStart(s: string, i: int)
    requires 0 <= i < |s|
  {
    !IsPySpace(s[i]) && (i == 0 || IsPySpace(s[i - 1]))
  }

  /** The number of run beginnings at positions `i` onwards. */
  function RunStarts(s: string, i: nat): nat
    requires i <= |s|
    decreases |s| - i
  {
    if i == |s| then 0 else (if RunStart(s, i) then 1 else 0) + RunStarts(s, i + 1)
  }

  lemma {:induction false} NoRunStarts(s: string, i: nat, j: nat)
    requires i <= j <= |s|
    requires forall k :: i <= k < j ==> !RunStart(s, k)
    ensures RunStarts(s, i) == RunStarts(s, j)
    decreases j - i
  {
    if i < j {
      NoRunStarts(s, i + 1, j);
    }
  }

  /** A run of `n` non-blank characters beginning at `j` holds one run beginning. */
  lemma OneRunStart(s: string, j: nat, n: nat)
    requires 1 <= n && j + n <= |s| && RunStart(s, j)
    requires forall k :: j <= k < j + n ==> !IsPySpace(s[k])
    ensures RunStarts(s, j) == 1 + RunStarts(s, j + n)
  {
    forall k | j + 1 <= k < j + n ensures !RunStart(s, k) {
      assert !IsPySpace(s[k - 1]);
    }
    NoRunStarts(s, j + 1, j + n);
  }

  /** The blanks that `DropLeading` removes from `s[i..]` hold no run beginning. */
  lemma SkipBlanks(s: string, i: nat) returns (j: nat)
    requires i <= |s|
    ensures i <= j <= |s| && DropLeading(s[i..], PyBlanks) == s[j..]
    ensures RunStarts(s, i) == RunStarts(s, j)
    ensures j > i ==> IsPySpace(s[j - 1])
  {
    var x := s[i..];
    var t := DropLeading(x, PyBlanks);
    DropLeadingSuffix(x, PyBlanks);
    j := i + (|x| - |t|);
    forall k | i <= k < j ensures !RunStart(s, k) {
      assert IsPySpace(x[k - i]);
    }
    NoRunStarts(s, i, j);
  }

  /** After the blanks `DropLeading` skips, the next word of `s[i..]` is `s[j..e]`. */
  lemma NextWord(s: string, i: nat, j: nat) returns (e: nat)
    requires i <= j < |s| && DropLeading(s[i..], PyBlanks) == s[j..]
    ensures j < e <= |s| && Words(s[i..]) == [s[j..e]] + Words(s[e..])
    ensures forall k :: j <= k < e ==> !IsPySpace(s[k])
    ensures e < |s| ==> IsPySpace(s[e])
  {
    var t := s[j..];
    var w := TakeWord(t);
    e := j + |w|;
    assert t[|w|..] == s[e..];
    assert w == t[..|w|];
    assert t[..|w|] == s[j..e];
    forall k | j <= k < e ensures !IsPySpace(s[k]) {
      assert s[k] == w[k - j];
    }
    if e < |s| {
      assert s[e] == t[|w|];
    }
  }

  /** From a position outside any word, the words of the rest are counted by their beginnings. */
  lemma {:induction false} WordsCountFrom(s: string, i: nat)
    requires i <= |s|
    requires i == 0 || i == |s| || IsPySpace(s[i - 1]) || IsPySpace(s[i])
    ensures |Words(s[i..])| == RunStarts(s, i)
    decreases |s| - i
  {
    var j := SkipBlanks(s, i);
    if j < |s| {
      var e := NextWord(s, i, j);
      assert RunStart(s, j);
      OneRunStart(s, j, e - j);
      WordsCountFrom(s, e);
    } else {
      assert DropLeading(s[i..], PyBlanks) == [];
    }
  }

  /** `len(s.split())` is the number of maximal runs of non-white-space in `s`. */
  lemma WordsCount(s: string)
    ensures |Words(s)| == RunStarts(s, 0)
  {
    assert s[0..] == s;
    WordsCountFrom(s, 0);
  }
}
