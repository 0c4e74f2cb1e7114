/**
 * `shuffle` (frontend/src/store.js:8-15): Fisher-Yates on a copy of the input. The calls to
 * `Math.random()` become a stream of draws handed in by the caller; a draw `d` used with
 * bound `n` picks `d % n`, and an exhausted stream picks 0.
 */
module Random {

  /** One `Math.floor(Math.random() * bound)`, and the stream left after it. */
  function Pick(rnd: seq<nat>, bound: nat): (r: (nat, seq<nat>))
    requires bound > 0
    ensures r.0 < bound
    ensures r.1 == if rnd == [] then [] else rnd[1..]
  {
    if rnd == [] then (0, []) else (rnd[0] % bound, rnd[1..])
  }

  /** The number of draws a shuffle of `n` elements uses. */
  function Draws(n: nat): nat { if n == 0 then 0 else n - 1 }

  /** The stream after `k` draws. */
  function Skip(rnd: seq<nat>, k: nat): seq<nat> {
    if k <= |rnd| then rnd[k..] else []
  }

  /** Exchanging two elements keeps the multiset. */
  lemma SwapPermutes<T>(s: seq<T>, i: nat, j: nat)
    requires i < |s| && j < |s|
    ensures multiset(s[i := s[j]][j := s[i]]) == multiset(s)
  {
  }

  /** Taking one draw from the stream after `k` draws leaves the stream after `k + 1`. */
  lemma SkipStep(rnd: seq<nat>, k: nat)
    ensures (if Skip(rnd, k) == [] then [] else Skip(rnd, k)[1..]) == Skip(rnd, k + 1)
  {
  }

  method Shuffle<T>(s: seq<T>, rnd: seq<nat>) returns (r: seq<T>, rest: seq<nat>)
    ensures |r| == |s|
    ensures multiset(r) == multiset(s)
    ensures |s| <= 1 ==> r == s
    ensures rest == Skip(rnd, Draws(|s|))
  {
    var a := new T[|s|](k requires 0 <= k < |s| => s[k]);
    assert a[..] == s;
    rest := rnd;
    var i: int := a.Length - 1;
    while i > 0
      invariant -1 <= i < a.Length
      invariant i == -1 <==> a.Length == 0
      invariant multiset(a[..]) == multiset(s)
      invariant a.Length <= 1 ==> a[..] == s
      invariant rest == Skip(rnd, a.Length - 1 - i)
      modifies a
    {
      var pick := Pick(rest, i + 1);
      var j := pick.0;
      SkipStep(rnd, a.Length - 1 - i);
      rest := pick.1;
      ghost var before := a[..];
      a[i], a[j] := a[j], a[i];
      assert a[..] == before[i := before[j]][j := before[i]];
      SwapPermutes(before, i, j);
      i := i - 1;
    }
    r := a[..];
  }
}
