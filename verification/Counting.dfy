/** A value that may be missing, in place of the source's null pointers. */
module Options {
  datatype Option<+T> = None | Some(value: T)
}

/** Sequences without repetition, and the counting arguments about them. */
module Counting {

  ghost predicate Differ<T>(s: seq<T>, i: nat, j: nat)
    requires i < j < |s|
  {
    s[i] != s[j]
  }

  // No element occurs twice in s.
  ghost predicate Distinct<T>(s: seq<T>) {
    forall i, j :: 0 <= i < j < |s| ==> Differ(s, i, j)
  }

  function Inserted<T>(s: seq<T>, pos: nat, x: T): (r: seq<T>)
    requires pos <= |s|
    ensures |r| == |s| + 1
    ensures forall i :: 0 <= i < |r| ==> r[i] == if i < pos then s[i] else if i == pos then x else s[i - 1]
  {
    s[..pos] + [x] + s[pos..]
  }

  lemma {:induction false} JoinAssoc<T>(a: seq<T>, b: seq<T>, c: seq<T>)
    ensures (a + b) + c == a + (b + c)
  {
  }

  lemma {:induction false} HeadTail<T>(s: seq<T>)
    requires s != []
    ensures s == [s[0]] + s[1..]
  {
  }

  lemma {:induction false} PrefixSlice<T>(s: seq<T>, n: nat, lo: nat, hi: nat)
    requires lo <= hi <= n <= |s|
    ensures s[..n][lo..hi] == s[lo..hi]
  {
    assert forall i :: lo <= i < hi ==> s[..n][i] == s[i];
  }

  // The numbers from lo up to, but not including, hi.
  function Range(lo: nat, hi: nat): (r: set<nat>)
    ensures forall n :: n in r <==> lo <= n < hi
    ensures |r| == if lo <= hi then hi - lo else 0
  {
    if hi <= lo then {} else Range(lo, hi - 1) + {hi - 1}
  }

  lemma {:induction false} DistinctTail<T>(s: seq<T>)
    requires Distinct(s) && s != []
    ensures Distinct(s[1..]) && s[0] !in s[1..]
  {
    forall i, j | 0 <= i < j < |s[1..]| ensures Differ(s[1..], i, j) {
      assert Differ(s, i + 1, j + 1);
    }
    forall i | 0 <= i < |s[1..]| ensures s[1..][i] != s[0] {
      assert Differ(s, 0, i + 1);
    }
  }

  ghost function Elements<T>(s: seq<T>): set<T> {
    set x | x in s
  }

  lemma {:induction false} DistinctSize<T>(s: seq<T>)
    requires Distinct(s)
    ensures |Elements(s)| == |s|
  {
    if s == [] {
      assert Elements(s) == {};
    } else {
      DistinctTail(s);
      DistinctSize(s[1..]);
      assert Elements(s) == Elements(s[1..]) + {s[0]};
    }
  }

  lemma {:induction false} SubsetSize<T>(s: set<T>, t: set<T>)
    requires s <= t
    ensures |s| <= |t|
    ensures |s| == |t| ==> s == t
  {
    assert t == s + (t - s);
  }

  // As many distinct numbers as a range holds: every number of the range occurs.
  lemma {:induction false} Pigeonhole(s: seq<nat>, lo: nat, hi: nat)
    requires lo <= hi && |s| == hi - lo && Distinct(s) && forall n :: n in s ==> lo <= n < hi
    ensures forall n :: lo <= n < hi ==> n in s
  {
    DistinctSize(s);
    SubsetSize(Elements(s), Range(lo, hi));
    forall n | lo <= n < hi ensures n in s {
      assert n in Range(lo, hi);
    }
  }
}

/** Remainders: quotient and remainder are unique. */
module Modulo {

  lemma {:induction false} Monotone(a: int, b: int, n: nat)
    requires a <= b
    ensures a * n <= b * n
  {
  }

  // Quotient and remainder are unique.
  lemma {:induction false} ModIs(x: int, q: int, r: nat, n: nat)
    requires x == q * n + r && r < n
    ensures x % n == r && x / n == q
  {
    var p := x / n;
    assert x == p * n + x % n;
    assert (p + 1) * n == p * n + n && (q + 1) * n == q * n + n;
    if p < q {
      Monotone(p + 1, q, n);
    } else if q < p {
      Monotone(q + 1, p, n);
    }
  }

  lemma {:induction false} ModStep(x: nat, c: nat, n: nat)
    requires 0 < n
    ensures (x % n + c) % n == (x + c) % n
  {
    var q, r := (x % n + c) / n, (x % n + c) % n;
    assert x + c == (x / n) * n + q * n + r;
    assert (x / n) * n + q * n == (x / n + q) * n;
    ModIs(x + c, x / n + q, r, n);
  }
}

module PowersOfTwo {
  function Pow2(n: nat): (p: nat)
    ensures p > 0
  {
    if n == 0 then 1 else 2 * Pow2(n - 1)
  }

  ghost predicate IsPowerOfTwo(n: nat) {
    exists k: nat :: n == Pow2(k)
  }

  // Each positive number is a power of two times an odd number.
  lemma {:induction false} OddPart(n: nat) returns (k: nat, m: nat)
    requires n > 0
    ensures n == Pow2(k) * m && m % 2 == 1
    ensures m == 1 ==> IsPowerOfTwo(n)
  {
    if n % 2 == 1 {
      k, m := 0, n;
      assert Pow2(0) == 1;
    } else {
      k, m := OddPart(n / 2);
      Doubled(Pow2(k), m, n / 2);
      k := k + 1;
    }
  }

  lemma {:induction false} Doubled(a: nat, m: nat, n: nat)
    requires a * m == n
    ensures (2 * a) * m == 2 * n
  {
  }

  lemma {:induction false} OddTimes(a: nat, b: nat)
    requires a % 2 == 1 && (a * b) % 2 == 0
    ensures b % 2 == 0
  {
    var c := a / 2;
    assert a * b == 2 * (c * b) + b by {
      assert a == 2 * c + 1;
    }
  }

  // A power of two that divides a product divides the factor that is not odd.
  lemma {:induction false} OddFactor(m: nat, a: nat, b: nat, q: nat) returns (r: nat)
    requires a % 2 == 1 && a * b == Pow2(m) * q
    ensures b == Pow2(m) * r
  {
    if m == 0 {
      r := b;
    } else {
      HalfProduct(Pow2(m - 1), q);
      OddTimes(a, b);
      assert a * b == 2 * (a * (b / 2)) by {
        assert b == 2 * (b / 2);
      }
      r := OddFactor(m - 1, a, b / 2, q);
      HalfProduct(Pow2(m - 1), r);
    }
  }

  lemma {:induction false} HalfProduct(p: nat, q: nat)
    ensures (2 * p) * q == 2 * (p * q)
  {
  }
}
