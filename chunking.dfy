/**
 * Ingestion chunker (`chunkText` in frontend/src/store.js and frontend/src/App.jsx, which
 * are the same): split the text into blank-line separated paragraphs, then pack paragraphs
 * greedily into chunks of at most `MaxChunk` UTF-16 code units (JavaScript's `length`),
 * never splitting a paragraph.
 */
module Chunking {
  import opened Wrappers
  import opened Text

  /** The size bound, in UTF-16 code units, of a chunk that holds more than one paragraph. */
  const MaxChunk: nat := 2000

  datatype TextChunk = TextChunk(id: nat, lectureId: string, order: nat, text: string)

  /** The last index `k` in `[lo, hi)` holding a newline, if any. */
  function LastNewline(t: string, lo: nat, hi: nat): (r: Option<nat>)
    requires lo <= hi <= |t|
    ensures r.Some? ==> lo <= r.value < hi && t[r.value] == '\n'
    ensures r.Some? ==> forall k :: r.value < k < hi ==> t[k] != '\n'
    ensures r.None? ==> forall k :: lo <= k < hi ==> t[k] != '\n'
    decreases hi - lo
  {
    if lo == hi then None
    else if t[hi - 1] == '\n' then Some(hi - 1)
    else LastNewline(t, lo, hi - 1)
  }

  /**
   * End (exclusive) of a match of `/\n\s*\n/` starting at `i`: a newline, the greedy run
   * of white space after it, backed off to its last newline.
   */
  function SepAt(t: string, i: nat): (r: Option<nat>)
    requires i < |t|
    ensures r.Some? ==> i + 2 <= r.value <= |t| && t[i] == '\n' && t[r.value - 1] == '\n'
    ensures r.Some? ==> forall k :: i < k < r.value ==> IsSpace(t[k])
  {
    if t[i] != '\n' then None
    else
      match LastNewline(t, i + 1, i + 1 + SpaceRun(t, i + 1))
      case None => None
      case Some(k) => Some(k + 1)
  }

  /** A separator match `/\n\s*\n/` can start at `i`. */
  predicate SepStarts(t: string, i: nat) {
    i + 1 < |t| && t[i] == '\n' && t[i + 1] == '\n'
  }

  /** The leftmost separator match at or after `i`, as (start, end). */
  function FirstSep(t: string, i: nat): (r: Option<(nat, nat)>)
    requires i <= |t|
    ensures r.Some? ==> i <= r.value.0 && r.value.0 + 2 <= r.value.1 <= |t|
    ensures r.Some? ==> forall k :: i <= k < r.value.0 ==> SepAt(t, k).None?
    ensures r.None? ==> forall k :: i <= k < |t| ==> SepAt(t, k).None?
    decreases |t| - i
  {
    if i == |t| then None
    else
      match SepAt(t, i)
      case Some(e) => Some((i, e))
      case None => FirstSep(t, i + 1)
  }

  /** `text.split(/\n\s*\n/)`: the paragraphs between separator matches. */
  function Paragraphs(t: string): (r: seq<string>)
    ensures |r| >= 1
    decreases |t|
  {
    match FirstSep(t, 0)
    case None => [t]
    case Some((i, e)) => [t[..i]] + Paragraphs(t[e..])
  }

  /** A blank line `\n\n` inside `t` always starts a separator match. */
  lemma DoubleNewlineIsSep(t: string, q: nat)
    requires SepStarts(t, q)
    ensures SepAt(t, q).Some?
  {
    assert SpaceRun(t, q + 1) >= 1;
  }

  /** No paragraph contains a blank line (two consecutive newlines). */
  lemma {:induction false} ParagraphsHaveNoBlankLine(t: string, j: nat, q: nat)
    requires j < |Paragraphs(t)|
    ensures !SepStarts(Paragraphs(t)[j], q)
    decreases |t|
  {
    match FirstSep(t, 0)
    case None =>
      if SepStarts(t, q) {
        DoubleNewlineIsSep(t, q);
      }
    case Some((i, e)) =>
      if j == 0 {
        var p := t[..i];
        if SepStarts(p, q) {
          assert SepStarts(t, q);
          DoubleNewlineIsSep(t, q);
        }
      } else {
        ParagraphsHaveNoBlankLine(t[e..], j - 1, q);
      }
  }

  /** Sum of the paragraph lengths, in UTF-16 code units as `p.length` counts them. */
  function TotalLen(ps: seq<string>): nat {
    if ps == [] then 0 else TotalLen(ps[..|ps| - 1]) + Utf16Len(ps[|ps| - 1])
  }

  function Flatten(gs: seq<seq<string>>): seq<string> {
    if gs == [] then [] else Flatten(gs[..|gs| - 1]) + gs[|gs| - 1]
  }

  /** The loop state of `chunkText`: closed chunks, the open chunk `acc`, and its `total`. */
  datatype ChunkAcc = ChunkAcc(done: seq<seq<string>>, acc: seq<string>, total: nat)

  /** One iteration: close the open chunk first when `p` would push it over the bound. */
  function ChunkStep(a: ChunkAcc, p: string): ChunkAcc {
    if a.total + Utf16Len(p) > MaxChunk && a.acc != [] then ChunkAcc(a.done + [a.acc], [p], Utf16Len(p))
    else ChunkAcc(a.done, a.acc + [p], a.total + Utf16Len(p))
  }

  function ChunkFold(ps: seq<string>): ChunkAcc {
    if ps == [] then ChunkAcc([], [], 0) else ChunkStep(ChunkFold(ps[..|ps| - 1]), ps[|ps| - 1])
  }

  /** The paragraph groups `chunkText` emits, the open chunk included when non-empty. */
  function Groups(ps: seq<string>): seq<seq<string>> {
    var a := ChunkFold(ps);
    if a.acc != [] then a.done + [a.acc] else a.done
  }

  /** What the fold keeps true: the facts behind every property of `Groups`. */
  ghost predicate FoldInv(ps: seq<string>, a: ChunkAcc) {
    && Flatten(a.done) + a.acc == ps
    && (ps != [] ==> a.acc != [])
    && a.total == TotalLen(a.acc)
    && (|a.acc| >= 2 ==> a.total <= MaxChunk)
    && (forall g :: 0 <= g < |a.done| ==> a.done[g] != [])
    && (forall g :: 0 <= g < |a.done| ==> |a.done[g]| >= 2 ==> TotalLen(a.done[g]) <= MaxChunk)
    && (forall g :: 0 <= g < |a.done| - 1 ==> TotalLen(a.done[g]) + Utf16Len(a.done[g + 1][0]) > MaxChunk)
    && (a.done != [] ==> TotalLen(a.done[|a.done| - 1]) + Utf16Len(a.acc[0]) > MaxChunk)
  }

  lemma TotalLenAppend(ps: seq<string>, p: string)
    ensures TotalLen(ps + [p]) == TotalLen(ps) + Utf16Len(p)
  {
    assert (ps + [p])[..|ps|] == ps;
  }

  lemma FlattenAppend(gs: seq<seq<string>>, g: seq<string>)
    ensures Flatten(gs + [g]) == Flatten(gs) + g
  {
    assert (gs + [g])[..|gs|] == gs;
  }

  /** A closed chunk was closed because the next paragraph would have overflowed it. */
  lemma CloseChain(a: ChunkAcc)
    requires a.acc != [] && forall g :: 0 <= g < |a.done| ==> a.done[g] != []
    requires forall g :: 0 <= g < |a.done| - 1 ==> TotalLen(a.done[g]) + Utf16Len(a.done[g + 1][0]) > MaxChunk
    requires a.done != [] ==> TotalLen(a.done[|a.done| - 1]) + Utf16Len(a.acc[0]) > MaxChunk
    ensures forall g :: 0 <= g < |a.done + [a.acc]| - 1 ==>
      TotalLen((a.done + [a.acc])[g]) + Utf16Len((a.done + [a.acc])[g + 1][0]) > MaxChunk
  {
    var d := a.done + [a.acc];
    forall g | 0 <= g < |d| - 1
      ensures TotalLen(d[g]) + Utf16Len(d[g + 1][0]) > MaxChunk
    {
      if g < |a.done| - 1 {
        assert d[g] == a.done[g] && d[g + 1] == a.done[g + 1];
      }
    }
  }

  lemma TotalLenSingle(p: string)
    ensures TotalLen([p]) == Utf16Len(p)
  {
    assert [p][..0] == [];
  }

  /** Closing the open chunk before `p` keeps the invariant. */
  lemma CloseStepInv(pre: seq<string>, a: ChunkAcc, p: string)
    requires FoldInv(pre, a)
    requires a.total + Utf16Len(p) > MaxChunk && a.acc != []
    ensures FoldInv(pre + [p], ChunkStep(a, p))
  {
    var b := ChunkStep(a, p);
    FlattenAppend(a.done, a.acc);
    TotalLenSingle(p);
    CloseChain(a);
    assert b.done[|b.done| - 1] == a.acc;
  }

  /** Appending `p` to the open chunk keeps the invariant. */
  lemma ExtendStepInv(pre: seq<string>, a: ChunkAcc, p: string)
    requires FoldInv(pre, a)
    requires !(a.total + Utf16Len(p) > MaxChunk && a.acc != [])
    ensures FoldInv(pre + [p], ChunkStep(a, p))
  {
    TotalLenAppend(a.acc, p);
    assert Flatten(a.done) + (a.acc + [p]) == pre + [p];
  }

  lemma SplitLast<T>(s: seq<T>)
    requires s != []
    ensures s[..|s| - 1] + [s[|s| - 1]] == s
  {
  }

  /** One more paragraph keeps the invariant, whichever way the step goes. */
  lemma StepInv(ps: seq<string>)
    requires ps != [] && FoldInv(ps[..|ps| - 1], ChunkFold(ps[..|ps| - 1]))
    ensures FoldInv(ps, ChunkFold(ps))
  {
    var pre, p := ps[..|ps| - 1], ps[|ps| - 1];
    SplitLast(ps);
    var a := ChunkFold(pre);
    if a.total + Utf16Len(p) > MaxChunk && a.acc != [] {
      CloseStepInv(pre, a, p);
    } else {
      ExtendStepInv(pre, a, p);
    }
  }

  lemma {:induction false} ChunkFoldInv(ps: seq<string>)
    ensures FoldInv(ps, ChunkFold(ps))
  {
    if ps != [] {
      ChunkFoldInv(ps[..|ps| - 1]);
      StepInv(ps);
    }
  }

  /** Concatenating the groups gives back the paragraph sequence, in order. */
  lemma GroupsFlatten(ps: seq<string>)
    ensures Flatten(Groups(ps)) == ps
  {
    ChunkFoldInv(ps);
    var a := ChunkFold(ps);
    if a.acc != [] {
      FlattenAppend(a.done, a.acc);
    }
  }

  /**
   * Every group is non-empty, a group of two or more paragraphs stays within the bound,
   * and a group is closed only because the next paragraph would have overflowed it.
   */
  lemma GroupsBounded(ps: seq<string>)
    ensures forall g :: 0 <= g < |Groups(ps)| ==> Groups(ps)[g] != []
    ensures forall g :: 0 <= g < |Groups(ps)| ==>
      |Groups(ps)[g]| >= 2 ==> TotalLen(Groups(ps)[g]) <= MaxChunk
    ensures forall g :: 0 <= g < |Groups(ps)| - 1 ==>
      TotalLen(Groups(ps)[g]) + Utf16Len(Groups(ps)[g + 1][0]) > MaxChunk
  {
    ChunkFoldInv(ps);
    var a := ChunkFold(ps);
    var gs := Groups(ps);
    if a.acc != [] {
      assert gs == a.done + [a.acc];
      forall g | 0 <= g < |gs| ensures gs[g] == if g < |a.done| then a.done[g] else a.acc {
      }
    } else {
      assert gs == a.done;
    }
  }

  /** The chunk records built from the groups: ids drawn in order from `firstId`. */
  function Records(gs: seq<seq<string>>, firstId: nat): (r: seq<TextChunk>)
    ensures |r| == |gs|
  {
    seq(|gs|, i requires 0 <= i < |gs| => TextChunk(firstId + i, "", i, Join(gs[i], "\n\n")))
  }

  /** The chunks `chunkText(text)` returns when its ids start at `firstId`. */
  function ChunkRecords(text: string, firstId: nat): seq<TextChunk> {
    Records(Groups(Paragraphs(text)), firstId)
  }

  /** Chunk `order` values are 0, 1, 2, ... and ids are consecutive from `firstId`. */
  lemma ChunkOrders(text: string, firstId: nat)
    ensures forall i :: 0 <= i < |ChunkRecords(text, firstId)| ==>
      ChunkRecords(text, firstId)[i].order == i && ChunkRecords(text, firstId)[i].id == firstId + i
  {
  }

  /** The fold over one more paragraph is one more step. */
  lemma ChunkFoldPrefix(ps: seq<string>, i: nat)
    requires i < |ps|
    ensures ChunkFold(ps[..i + 1]) == ChunkStep(ChunkFold(ps[..i]), ps[i])
  {
    assert ps[..i + 1][..i] == ps[..i];
  }

  /** `chunkText` (frontend/src/store.js:468-496): the loop over the paragraphs. */
  method ChunkText(text: string, firstId: nat) returns (chunks: seq<TextChunk>)
    ensures chunks == ChunkRecords(text, firstId)
  {
    var paras := Paragraphs(text);
    chunks := [];
    var acc: seq<string> := [];
    var total: nat := 0;
    ghost var done: seq<seq<string>> := [];
    var i := 0;
    while i < |paras|
      invariant 0 <= i <= |paras|
      invariant ChunkFold(paras[..i]) == ChunkAcc(done, acc, total)
      invariant chunks == Records(done, firstId)
    {
      var p := paras[i];
      var len := Utf16Len(p);
      ChunkFoldPrefix(paras, i);
      if total + len > MaxChunk && acc != [] {
        chunks := chunks + [TextChunk(firstId + |chunks|, "", |chunks|, Join(acc, "\n\n"))];
        done := done + [acc];
        acc := [];
        total := 0;
      }
      acc := acc + [p];
      total := total + len;
      i := i + 1;
    }
    assert paras[..i] == paras;
    if acc != [] {
      chunks := chunks + [TextChunk(firstId + |chunks|, "", |chunks|, Join(acc, "\n\n"))];
      done := done + [acc];
    }
  }

  /** `chunks.map((c) => c.text).join("\n\n")`: what the in-browser extractor receives. */
  function ChunkTexts(chunks: seq<TextChunk>): string {
    if chunks == [] then []
    else if |chunks| == 1 then chunks[0].text
    else chunks[0].text + "\n\n" + ChunkTexts(chunks[1..])
  }

  /** The groups' texts joined by blank lines. */
  function JoinGroups(gs: seq<seq<string>>): string {
    if gs == [] then []
    else if |gs| == 1 then Join(gs[0], "\n\n")
    else Join(gs[0], "\n\n") + "\n\n" + JoinGroups(gs[1..])
  }

  /** The joined chunk texts of `text`, which do not depend on the chunk ids. */
  function ChunkedText(text: string): string {
    JoinGroups(Groups(Paragraphs(text)))
  }

  /** Chunks whose texts are the groups joined by blank lines join to `JoinGroups(gs)`. */
  lemma {:induction false} ChunkTextsGroups(chunks: seq<TextChunk>, gs: seq<seq<string>>)
    requires |chunks| == |gs| && forall i :: 0 <= i < |gs| ==> chunks[i].text == Join(gs[i], "\n\n")
    ensures ChunkTexts(chunks) == JoinGroups(gs)
    decreases |gs|
  {
    if |gs| > 1 {
      assert forall i :: 0 <= i < |gs| - 1 ==> chunks[1..][i] == chunks[i + 1] && gs[1..][i] == gs[i + 1];
      ChunkTextsGroups(chunks[1..], gs[1..]);
    }
  }

  /** Joining the chunk texts of `chunkText(text)` gives `ChunkedText(text)`, whatever the ids. */
  method JoinChunkTexts(chunks: seq<TextChunk>, ghost text: string, ghost firstId: nat) returns (joined: string)
    requires chunks == ChunkRecords(text, firstId)
    ensures joined == ChunkedText(text)
  {
    joined := ChunkTexts(chunks);
    ChunkTextsGroups(chunks, Groups(Paragraphs(text)));
  }
}
