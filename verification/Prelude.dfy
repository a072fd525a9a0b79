/** Types shared by every module: options, results, and the machine integers of the Go code. */
module Prelude {

  datatype Option<+T> = None | Some(value: T)

  /** A Go call that returns a value or an error; the error is its message. */
  datatype Result<+T> = Ok(value: T) | Err(error: string)
  {
    predicate IsFailure() { Err? }

    function PropagateFailure<U>(): Result<U>
      requires Err?
    {
      Err(error)
    }

    function Extract(): T
      requires Ok?
    {
      value
    }
  }

  const TWO_64: int := 0x1_0000_0000_0000_0000
  const TWO_63: int := 0x8000_0000_0000_0000

  /** A second, in nanoseconds. */
  const SECOND: int := 1_000_000_000

  type Uint64 = n: int | 0 <= n < TWO_64
  type Int64 = n: int | -TWO_63 <= n < TWO_63
  type Byte = n: int | 0 <= n < 256

  /** uint64 addition, subtraction: both wrap. */
  function Add64(a: Uint64, b: Uint64): Uint64 { (a + b) % TWO_64 }

  function Sub64(a: Uint64, b: Uint64): Uint64 { (a - b) % TWO_64 }

  /** Go's conversions between uint64 and int64 keep the bits. */
  function ToInt64(n: Uint64): Int64 { if n < TWO_63 then n else n - TWO_64 }

  function ToUint64(n: Int64): Uint64 { if n >= 0 then n else n + TWO_64 }

  /** The code points of a string, the key by which Go compares strings. */
  function Codes(s: string): (codes: seq<int>)
    ensures |codes| == |s|
  {
    seq(|s|, i requires 0 <= i < |s| => s[i] as int)
  }

  lemma CodesInjective(s: string, t: string)
    requires Codes(s) == Codes(t)
    ensures s == t
  {
    forall i | 0 <= i < |s| ensures s[i] == t[i] {
      assert Codes(s)[i] == Codes(t)[i];
    }
  }

  /** The elements of a sequence, as a set. */
  function Elements<T>(s: seq<T>): set<T> { set x | x in s }

  lemma ElementsSnoc<T>(s: seq<T>, x: T)
    ensures Elements(s + [x]) == Elements(s) + {x}
  {
  }

  ghost predicate Distinct<T>(s: seq<T>) {
    forall i, j :: 0 <= i < j < |s| ==> s[i] != s[j]
  }

  /** A sequence without repeats has as many elements as its set. */
  lemma {:induction false} DistinctCardinality<T>(s: seq<T>)
    requires Distinct(s)
    ensures |Elements(s)| == |s|
  {
    if s != [] {
      DistinctCardinality(s[1..]);
      assert s[0] !in s[1..];
      assert Elements(s) == {s[0]} + Elements(s[1..]);
    }
  }

  /** A quotient and remainder are the only ones of their kind. */
  lemma DivModUnique(x: int, m: int, q: int, r: int)
    requires m > 0 && 0 <= r < m && x == m * q + r
    ensures x / m == q && x % m == r
  {
    var d := q - x / m;
    assert m * d == x % m - r by {
      assert x == m * (x / m) + x % m;
      assert m * d == m * q - m * (x / m);
    }
    if d >= 1 { MulAtLeast(m, d, 1); }
    if d <= -1 { MulAtLeast(m, -1, d); }
  }

  lemma MulAtLeast(m: int, a: int, b: int)
    requires m > 0 && a >= b
    ensures m * a >= m * b
  {
    assert m * a == m * b + m * (a - b);
  }

  lemma ModPlus(x: int, m: int)
    requires m > 0
    ensures (x + m) % m == x % m && (x + m) / m == x / m + 1
  {
    DivModUnique(x + m, m, x / m + 1, x % m);
  }
}
