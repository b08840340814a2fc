/** Small value types shared by the rest of the model. */
module Common {

  /** Rust's `Option<T>`. */
  datatype Option<+T> = None | Some(value: T)

  /** Rust's `Result<T, E>`. */
  datatype Result<+T, +E> = Ok(value: T) | Err(error: E)

  /** Rust's `u8`. */
  newtype U8 = x: int | 0 <= x < 0x100

  /** A 128-bit UUID as produced by the `uuid` crate, as its integer value. */
  newtype Uuid = x: int | 0 <= x < 0x1_0000_0000_0000_0000_0000_0000_0000_0000

  /** `s` back to front: `Iterator::rev`, and the order in which repeated
      `Vec::pop`s hand out the elements of `s`. */
  function Reversed<T>(s: seq<T>): (r: seq<T>)
    ensures |r| == |s|
  {
    if s == [] then [] else Reversed(s[1..]) + [s[0]]
  }

  /** Element `i` of the reversal is element `|s| - 1 - i` of `s`. */
  lemma {:induction false} ReversedAt<T>(s: seq<T>, i: nat)
    requires i < |s|
    ensures Reversed(s)[i] == s[|s| - 1 - i]
  {
    if i < |s| - 1 {
      ReversedAt(s[1..], i);
    }
  }

  /** Reversal only reorders. */
  lemma {:induction false} ReversedMultiset<T>(s: seq<T>)
    ensures multiset(Reversed(s)) == multiset(s)
  {
    if s != [] {
      ReversedMultiset(s[1..]);
      assert s == [s[0]] + s[1..];
    }
  }

  function Min(a: int, b: int): int { if a <= b then a else b }

  function Max(a: int, b: int): int { if a >= b then a else b }

  lemma MulAtLeast(d: int, m: int)
    requires d >= 1 && m > 0
    ensures d * m >= m
  {
    assert d * m == (d - 1) * m + m;
  }

  lemma MulAtMost(d: int, m: int)
    requires d <= -1 && m > 0
    ensures d * m <= -m
  {
    assert d * m == (d + 1) * m - m;
  }

  /** Euclidean division has a unique quotient and remainder. */
  lemma ModUnique(i: int, m: int, q: int, r: int)
    requires m > 0 && 0 <= r < m && i == q * m + r
    ensures i % m == r
  {
    var q', r' := i / m, i % m;
    var d := q - q';
    assert d * m == r' - r by {
      assert q * m - q' * m == (q - q') * m;
    }
    if d >= 1 {
      MulAtLeast(d, m);
    } else if d <= -1 {
      MulAtMost(d, m);
    }
  }

  lemma ModMinus(i: int, m: int)
    requires m > 0 && i >= m
    ensures (i - m) % m == i % m
  {
    var q, r := i / m, i % m;
    assert i - m == (q - 1) * m + r;
    ModUnique(i - m, m, q - 1, r);
  }
}
