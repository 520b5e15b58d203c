/** Python integer division and list slicing. Dafny's `/` and `%` are
    Euclidean, Python's `//` and `%` round toward minus infinity and `int()` of
    a quotient rounds toward zero, so each is written out here; slices clamp
    their bounds and read negative ones from the end. */
module PySeq {

  /** `a // b`. */
  function FloorDiv(a: int, b: int): (q: int)
    requires b != 0
    ensures b > 0 ==> b * q <= a < b * q + b
    ensures b < 0 ==> b * q >= a > b * q + b
  {
    if b > 0 then a / b else (-a) / (-b)
  }

  /** `a % b`: the remainder has the sign of `b`. */
  function FloorMod(a: int, b: int): (m: int)
    requires b != 0
    ensures a == b * FloorDiv(a, b) + m
    ensures b > 0 ==> 0 <= m < b
    ensures b < 0 ==> b < m <= 0
  {
    a - b * FloorDiv(a, b)
  }

  /** `int(num / den)` for a positive denominator: the quotient rounded toward zero. */
  function TruncDiv(num: int, den: int): (q: int)
    requires den > 0
    ensures num >= 0 ==> 0 <= q && q * den <= num < q * den + den
    ensures num < 0 ==> q <= 0 && q * den >= num > q * den - den
  {
    if num >= 0 then
      DivBounds(num, den);
      num / den
    else
      DivBounds(-num, den);
      NegMul((-num) / den, den);
      -((-num) / den)
  }

  lemma DivBounds(a: nat, d: int)
    requires d > 0
    ensures 0 <= a / d && (a / d) * d <= a < (a / d) * d + d
  {
  }

  lemma NegMul(x: int, d: int)
    ensures (-x) * d == -(x * d)
  {
  }

  /** Where a slice bound `i` lands in a sequence of length `n`. */
  function SliceIndex(i: int, n: nat): (k: nat)
    ensures k <= n
    ensures 0 <= i <= n ==> k == i
    ensures i > n ==> k == n
    ensures i < 0 ==> k == if n + i < 0 then 0 else n + i
  {
    if i < 0 then (if n + i < 0 then 0 else n + i)
    else if i > n then n
    else i
  }

  /** `s[i:j]`. */
  function Slice<T>(s: seq<T>, i: int, j: int): (r: seq<T>)
    ensures SliceIndex(i, |s|) <= SliceIndex(j, |s|) ==> r == s[SliceIndex(i, |s|)..SliceIndex(j, |s|)]
    ensures SliceIndex(i, |s|) > SliceIndex(j, |s|) ==> r == []
  {
    var a, b := SliceIndex(i, |s|), SliceIndex(j, |s|);
    if a <= b then s[a..b] else []
  }

  /** `s[:k]`. */
  function Take<T>(s: seq<T>, k: int): seq<T> {
    Slice(s, 0, k)
  }

  /** `s[k:]`. */
  function Drop<T>(s: seq<T>, k: int): seq<T> {
    Slice(s, k, |s|)
  }

  /** `s[:k] + s[k:] == s`, whatever `k` is, negative or past the end. */
  lemma TakeDrop<T>(s: seq<T>, k: int)
    ensures Take(s, k) + Drop(s, k) == s
    ensures |Take(s, k)| == SliceIndex(k, |s|)
  {
    var m := SliceIndex(k, |s|);
    assert Take(s, k) == s[..m];
    assert Drop(s, k) == s[m..];
    assert s[..m] + s[m..] == s;
  }

  lemma MulLe(a: int, b: int, m: nat)
    requires a <= b
    ensures a * m <= b * m
  {
  }

  lemma MulSucc(a: int, m: int)
    ensures (a + 1) * m == a * m + m
  {
  }

  /** The elements of a list of lists, in order: `sum(ss, [])`. */
  function Flatten<T>(ss: seq<seq<T>>): seq<T>
    decreases |ss|
  {
    if |ss| == 0 then [] else Flatten(ss[..|ss| - 1]) + ss[|ss| - 1]
  }
}
