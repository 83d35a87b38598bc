/**
 * Python's basic slicing `s[start:stop]` with step 1, as used by torch and numpy
 * on one axis: a negative bound counts from the end, every bound is clamped into
 * `[0, len(s)]`, and a slice whose start is not before its stop is empty.
 */
module PySlice {

  function Min(a: int, b: int): int {
    if a <= b then a else b
  }

  /** Normalises one slice bound `i` against a sequence of length `n`. */
  function Bound(i: int, n: nat): (r: nat)
    ensures r <= n
  {
    if i < 0 then (if i + n < 0 then 0 else i + n)
    else if i > n then n
    else i
  }

  /** `s[start:stop]`. */
  function Slice<T>(s: seq<T>, start: int, stop: int): seq<T> {
    var a, b := Bound(start, |s|), Bound(stop, |s|);
    if a <= b then s[a..b] else []
  }

  /** `s[start:]`: an omitted stop is the length of `s`. */
  function SliceFrom<T>(s: seq<T>, start: int): seq<T> {
    Slice(s, start, |s|)
  }

  /** `s[:n]` keeps the first `n` elements, or all of them when `s` is shorter. */
  lemma SlicePrefix<T>(s: seq<T>, n: nat)
    ensures Slice(s, 0, n) == s[..Min(n, |s|)]
  {
  }

  /** `s[a:a+m]` for non-negative `a` and `m` is the run of at most `m` elements from `a`. */
  lemma SliceRun<T>(s: seq<T>, a: nat, m: nat)
    ensures Slice(s, a, a + m) == if a <= |s| then s[a..Min(a + m, |s|)] else []
  {
  }

  /**
   * `s[-m:]` keeps the last `m` elements, but since `-0` is `0` it keeps all of
   * `s` when `m == 0`, and all of `s` as well when `m` exceeds its length.
   */
  lemma SliceSuffix<T>(s: seq<T>, m: nat)
    ensures SliceFrom(s, -(m as int)) == if m == 0 || |s| <= m then s else s[|s| - m..]
  {
  }
}
