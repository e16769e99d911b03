/** Bytes, hashes, powers and positional notation, shared by the other modules. */
module Basics {
  type Byte = b: int | 0 <= b < 256

  type Bytes = seq<Byte>

  /** A SHA-256 digest. */
  type Hash = h: seq<Byte> | |h| == 32 witness seq(32, _ => 0)

  datatype Option<+T> = None | Some(value: T)

  function Min(a: int, b: int): int { if a <= b then a else b }

  function Max(a: int, b: int): int { if a <= b then b else a }

  function One(b: bool): nat { if b then 1 else 0 }

  /** A counter in a map; a missing one is zero. */
  function Get<K>(m: map<K, int>, k: K): int { if k in m then m[k] else 0 }

  /** All elements but one. */
  function Without<T>(s: seq<T>, i: nat): (r: seq<T>)
    requires i < |s|
    ensures multiset(s) == multiset(r) + multiset{s[i]}
    ensures |r| == |s| - 1
  {
    assert s == s[..i] + [s[i]] + s[i + 1..];
    s[..i] + s[i + 1..]
  }

  function Zeros(n: nat): (z: Bytes)
    ensures |z| == n
  {
    if n == 0 then [] else Zeros(n - 1) + [0]
  }

  function Pow(b: nat, e: nat): (p: nat)
    ensures b > 0 ==> p > 0
  {
    if e == 0 then 1 else b * Pow(b, e - 1)
  }

  lemma {:induction false} PowAdd(b: nat, m: nat, n: nat)
    ensures Pow(b, m + n) == Pow(b, m) * Pow(b, n)
    decreases m
  {
    if m != 0 {
      PowAdd(b, m - 1, n);
      assert Pow(b, m + n) == b * (Pow(b, m - 1) * Pow(b, n)) == (b * Pow(b, m - 1)) * Pow(b, n);
    }
  }

  /** The number that the digits `s` denote in base `b`, most significant digit first. */
  function Num(b: nat, s: seq<int>): int {
    if s == [] then 0 else Num(b, s[..|s| - 1]) * b + s[|s| - 1]
  }

  ghost predicate Digits(b: nat, s: seq<int>) {
    forall i :: 0 <= i < |s| ==> 0 <= s[i] < b
  }

  lemma {:induction false} NumAppend(b: nat, s: seq<int>, t: seq<int>)
    ensures Num(b, s + t) == Num(b, s) * Pow(b, |t|) + Num(b, t)
    decreases |t|
  {
    if t == [] {
      assert s + t == s;
    } else {
      var t' := t[..|t| - 1];
      NumAppend(b, s, t');
      assert (s + t)[..|s + t| - 1] == s + t';
      assert Pow(b, |t|) == b * Pow(b, |t'|);
      assert (Num(b, s) * Pow(b, |t'|)) * b == Num(b, s) * (b * Pow(b, |t'|));
    }
  }

  lemma NumFront(b: nat, d: int, s: seq<int>)
    ensures Num(b, [d] + s) == d * Pow(b, |s|) + Num(b, s)
  {
    NumAppend(b, [d], s);
    assert [d][..0] == [];
  }

  lemma {:induction false} NumBounds(b: nat, s: seq<int>)
    requires Digits(b, s)
    ensures 0 <= Num(b, s) < Pow(b, |s|)
  {
    if s != [] {
      var s' := s[..|s| - 1];
      NumBounds(b, s');
      var n, p := Num(b, s'), Pow(b, |s'|);
      MulLt(n, p, b);
      assert p * b == Pow(b, |s|);
    }
  }

  lemma {:induction false} NumOfZeros(b: nat, s: seq<int>)
    requires forall i :: 0 <= i < |s| ==> s[i] == 0
    ensures Num(b, s) == 0
  {
    if s != [] {
      NumOfZeros(b, s[..|s| - 1]);
    }
  }

  /** Numerals of equal length denote different numbers unless they are equal. */
  lemma {:induction false} NumInjective(b: nat, s: seq<int>, t: seq<int>)
    requires Digits(b, s) && Digits(b, t) && |s| == |t| && Num(b, s) == Num(b, t)
    ensures s == t
  {
    if s != [] {
      var n := |s| - 1;
      SameQuotient(b, Num(b, s[..n]), s[n], Num(b, t[..n]), t[n]);
      NumInjective(b, s[..n], t[..n]);
      assert s == s[..n] + [s[n]] && t == t[..n] + [t[n]];
    }
  }

  lemma SameQuotient(b: nat, q: int, r: int, q': int, r': int)
    requires 0 <= r < b && 0 <= r' < b && q * b + r == q' * b + r'
    ensures q == q' && r == r'
  {
    if q < q' {
      MulLt(q, q', b);
    } else if q' < q {
      MulLt(q', q, b);
    }
  }

  lemma MulLt(x: int, y: int, b: nat)
    requires x < y
    ensures x * b + b <= y * b
  {
    assert (y - x - 1) * b >= 0;
  }
}
