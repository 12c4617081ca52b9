/** Linear feedback registers in general: a step that respects an addition, fed a message.
    Nothing here depends on what the register holds. */
module Registers {

  ghost predicate HomAt<T(!new)>(f: T -> T, add: (T, T) -> T, x: T, y: T) {
    f(add(x, y)) == add(f(x), f(y))
  }

  // f respects the addition.
  ghost predicate Hom<T(!new)>(f: T -> T, add: (T, T) -> T) {
    forall x, y :: HomAt(f, add, x, y)
  }

  ghost predicate InjectiveAt<T(!new)>(f: T -> T, x: T, y: T) {
    f(x) == f(y) ==> x == y
  }

  ghost predicate Injective<T(!new)>(f: T -> T) {
    forall x, y :: InjectiveAt(f, x, y)
  }

  ghost predicate AssociatesAt<T(!new)>(add: (T, T) -> T, a: T, b: T, c: T) {
    add(add(a, b), c) == add(a, add(b, c))
  }

  ghost predicate CommutesAt<T(!new)>(add: (T, T) -> T, a: T, b: T) {
    add(a, b) == add(b, a)
  }

  // The addition is associative and commutative.
  ghost predicate IsSum<T(!new)>(add: (T, T) -> T) {
    (forall a, b, c :: AssociatesAt(add, a, b, c)) && forall a, b :: CommutesAt(add, a, b)
  }

  ghost predicate SwapsAt<T(!new)>(add: (T, T) -> T, a: T, b: T, c: T, d: T) {
    add(add(a, b), add(c, d)) == add(add(a, c), add(b, d))
  }

  lemma {:induction false} SumSwaps<T(!new)>(add: (T, T) -> T, a: T, b: T, c: T, d: T)
    requires IsSum(add)
    ensures SwapsAt(add, a, b, c, d)
  {
    assert AssociatesAt(add, a, b, add(c, d)) && AssociatesAt(add, b, c, d) && CommutesAt(add, b, c);
    assert AssociatesAt(add, c, b, d) && AssociatesAt(add, a, c, add(b, d));
  }

  ghost predicate IsZero<T(!new)>(add: (T, T) -> T, zero: T) {
    forall x :: add(x, zero) == x
  }

  function Twice<T>(f: T -> T): T -> T {
    x => f(f(x))
  }

  lemma {:induction false} HomTwice<T(!new)>(f: T -> T, add: (T, T) -> T)
    requires Hom(f, add)
    ensures Hom(Twice(f), add)
  {
    forall x, y ensures HomAt(Twice(f), add, x, y) {
      assert HomAt(f, add, x, y) && HomAt(f, add, f(x), f(y));
    }
  }

  lemma {:induction false} InjectiveTwice<T(!new)>(f: T -> T)
    requires Injective(f)
    ensures Injective(Twice(f))
  {
    forall x, y ensures InjectiveAt(Twice(f), x, y) {
      assert InjectiveAt(f, x, y) && InjectiveAt(f, f(x), f(y));
    }
  }

  // The register's state after a message: each letter is added in, then the register steps.
  function Feed<T>(f: T -> T, add: (T, T) -> T, s: T, message: seq<T>): T
    decreases |message|
  {
    if message == [] then s else Feed(f, add, f(add(s, message[0])), message[1..])
  }

  function Sum<T>(add: (T, T) -> T, a: seq<T>, b: seq<T>): (c: seq<T>)
    requires |a| == |b|
    ensures |c| == |a| && forall i :: 0 <= i < |c| ==> c[i] == add(a[i], b[i])
  {
    seq(|a|, i requires 0 <= i < |a| => add(a[i], b[i]))
  }

  lemma {:induction false} FeedAppend<T>(f: T -> T, add: (T, T) -> T, s: T, a: seq<T>, b: seq<T>)
    ensures Feed(f, add, s, a + b) == Feed(f, add, Feed(f, add, s, a), b)
    decreases |a|
  {
    if a == [] {
      assert a + b == b;
    } else {
      assert (a + b)[0] == a[0] && (a + b)[1..] == a[1..] + b;
      FeedAppend(f, add, f(add(s, a[0])), a[1..], b);
    }
  }

  // The state is linear in start and message together.
  lemma {:induction false} FeedHom<T(!new)>(f: T -> T, add: (T, T) -> T, s: T, t: T, a: seq<T>, b: seq<T>)
    requires Hom(f, add) && IsSum(add) && |a| == |b|
    ensures Feed(f, add, add(s, t), Sum(add, a, b)) == add(Feed(f, add, s, a), Feed(f, add, t, b))
    decreases |a|
  {
    if a != [] {
      var c := Sum(add, a, b);
      SumSwaps(add, s, t, a[0], b[0]);
      assert HomAt(f, add, add(s, a[0]), add(t, b[0]));
      assert c[1..] == Sum(add, a[1..], b[1..]);
      FeedHom(f, add, f(add(s, a[0])), f(add(t, b[0])), a[1..], b[1..]);
    }
  }

  // A run of zero letters leaves zero alone and makes nothing else zero.
  lemma {:induction false} FeedZeros<T(!new)>(f: T -> T, add: (T, T) -> T, zero: T, s: T, message: seq<T>)
    requires Injective(f) && IsZero(add, zero) && f(zero) == zero
    requires forall i :: 0 <= i < |message| ==> message[i] == zero
    ensures Feed(f, add, s, message) == zero <==> s == zero
    decreases |message|
  {
    if message != [] {
      assert add(s, zero) == s && InjectiveAt(f, s, zero);
      FeedZeros(f, add, zero, f(s), message[1..]);
    }
  }

  lemma {:induction false} FeedNext<T>(f: T -> T, add: (T, T) -> T, s: T, d: seq<T>, i: nat)
    requires i < |d|
    ensures Feed(f, add, s, d[i..]) == Feed(f, add, f(add(s, d[i])), d[i + 1..])
  {
    assert d[i..][1..] == d[i + 1..];
  }

  lemma {:induction false} FeedFour<T>(f: T -> T, add: (T, T) -> T, s: T, d: seq<T>)
    requires |d| == 4
    ensures Feed(f, add, s, d) == f(add(f(add(f(add(f(add(s, d[0])), d[1])), d[2])), d[3]))
  {
    var s1 := f(add(s, d[0]));
    var s2 := f(add(s1, d[1]));
    var s3 := f(add(s2, d[2]));
    FeedNext(f, add, s, d, 0);
    FeedNext(f, add, s1, d, 1);
    FeedNext(f, add, s2, d, 2);
    FeedNext(f, add, s3, d, 3);
    assert d[0..] == d && d[4..] == [];
  }

  ghost predicate InverseAt<T(!new)>(f: T -> T, g: T -> T, x: T) {
    g(f(x)) == x && f(g(x)) == x
  }

  // g undoes f and f undoes g.
  ghost predicate Inverse<T(!new)>(f: T -> T, g: T -> T) {
    forall x :: InverseAt(f, g, x)
  }

  function Iterate<T>(f: T -> T, x: T, n: nat): T {
    if n == 0 then x else f(Iterate(f, x, n - 1))
  }

  lemma {:induction false} IterateAdd<T(!new)>(f: T -> T, x: T, m: nat, n: nat)
    ensures Iterate(f, Iterate(f, x, m), n) == Iterate(f, x, m + n)
  {
    if n > 0 {
      IterateAdd(f, x, m, n - 1);
    }
  }

  // x plus its image.
  function Spread<T>(f: T -> T, add: (T, T) -> T, x: T): T {
    add(x, f(x))
  }

  // Its undoing, by putting the result so far back into "the value plus my image" under g, the
  // opposite of f, n times.
  function Unspread<T>(g: T -> T, add: (T, T) -> T, y: T, n: nat): T {
    if n == 0 then y else add(y, g(Unspread(g, add, y, n - 1)))
  }

  ghost predicate OppositeAt<T(!new)>(add: (T, T) -> T, neg: T -> T, zero: T, x: T) {
    add(x, neg(x)) == zero
  }

  // The addition has a zero, and an opposite for each value.
  ghost predicate IsGroup<T(!new)>(add: (T, T) -> T, neg: T -> T, zero: T) {
    IsSum(add) && IsZero(add, zero) && forall x :: OppositeAt(add, neg, zero, x)
  }

  lemma {:induction false} OppositeIsUnique<T(!new)>(add: (T, T) -> T, neg: T -> T, zero: T, a: T, b: T, c: T)
    requires IsGroup(add, neg, zero) && add(a, b) == zero && add(a, c) == zero
    ensures b == c
  {
    assert AssociatesAt(add, b, a, c) && CommutesAt(add, a, b) && CommutesAt(add, zero, c);
    assert add(b, zero) == b && add(c, zero) == c;
  }

  lemma {:induction false} OppositeTwice<T(!new)>(add: (T, T) -> T, neg: T -> T, zero: T, x: T)
    requires IsGroup(add, neg, zero)
    ensures neg(neg(x)) == x
  {
    assert OppositeAt(add, neg, zero, x) && OppositeAt(add, neg, zero, neg(x)) && CommutesAt(add, x, neg(x));
    OppositeIsUnique(add, neg, zero, neg(x), neg(neg(x)), x);
  }

  lemma {:induction false} OppositeOfSum<T(!new)>(add: (T, T) -> T, neg: T -> T, zero: T, x: T, y: T)
    requires IsGroup(add, neg, zero)
    ensures HomAt(neg, add, x, y)
  {
    assert OppositeAt(add, neg, zero, x) && OppositeAt(add, neg, zero, y) && OppositeAt(add, neg, zero, add(x, y));
    SumSwaps(add, x, y, neg(x), neg(y));
    assert SwapsAt(add, x, y, neg(x), neg(y)) && add(zero, zero) == zero;
    OppositeIsUnique(add, neg, zero, add(x, y), neg(add(x, y)), add(neg(x), neg(y)));
  }

  lemma {:induction false} HomOfZero<T(!new)>(f: T -> T, add: (T, T) -> T, neg: T -> T, zero: T)
    requires IsGroup(add, neg, zero) && Hom(f, add)
    ensures f(zero) == zero
  {
    var z := f(zero);
    assert HomAt(f, add, zero, zero) && add(zero, zero) == zero;
    assert OppositeAt(add, neg, zero, z) && AssociatesAt(add, z, z, neg(z)) && add(z, zero) == z;
  }

  lemma {:induction false} HomOfOpposite<T(!new)>(f: T -> T, add: (T, T) -> T, neg: T -> T, zero: T, x: T)
    requires IsGroup(add, neg, zero) && Hom(f, add)
    ensures f(neg(x)) == neg(f(x))
  {
    HomOfZero(f, add, neg, zero);
    assert HomAt(f, add, x, neg(x)) && OppositeAt(add, neg, zero, x) && OppositeAt(add, neg, zero, f(x));
    OppositeIsUnique(add, neg, zero, f(x), f(neg(x)), neg(f(x)));
  }

  ghost predicate OppositesAt<T(!new)>(f: T -> T, g: T -> T, neg: T -> T, x: T) {
    g(x) == neg(f(x))
  }

  // f respects the addition, and g is its opposite.
  ghost predicate Opposites<T(!new)>(f: T -> T, g: T -> T, add: (T, T) -> T, neg: T -> T, zero: T) {
    IsGroup(add, neg, zero) && Hom(f, add) && forall x :: OppositesAt(f, g, neg, x)
  }

  // What follows for the two.
  lemma {:induction false} OppositesMeet<T(!new)>(f: T -> T, g: T -> T, add: (T, T) -> T, neg: T -> T, zero: T, x: T, y: T)
    requires Opposites(f, g, add, neg, zero)
    ensures f(x) == neg(g(x)) && g(neg(x)) == neg(g(x)) && add(x, neg(x)) == zero && HomAt(g, add, x, y)
  {
    assert OppositesAt(f, g, neg, x) && OppositesAt(f, g, neg, y) && OppositesAt(f, g, neg, neg(x)) && OppositesAt(f, g, neg, add(x, y));
    OppositeTwice(add, neg, zero, f(x));
    HomOfOpposite(f, add, neg, zero, x);
    assert HomAt(f, add, x, y) && OppositeAt(add, neg, zero, x);
    OppositeOfSum(add, neg, zero, f(x), f(y));
  }

  lemma {:induction false} Cancel<T(!new)>(add: (T, T) -> T, neg: T -> T, zero: T, a: T, b: T, c: T)
    requires IsSum(add) && IsZero(add, zero) && add(b, neg(b)) == zero
    ensures add(add(a, neg(b)), add(b, c)) == add(a, c)
  {
    assert AssociatesAt(add, a, neg(b), add(b, c)) && AssociatesAt(add, neg(b), b, c) && CommutesAt(add, neg(b), b);
    assert CommutesAt(add, zero, c) && add(c, zero) == c;
  }

  // Spreading and unspreading in either order leave only the (n+1)-st image as a remainder.
  lemma {:induction false} UnspreadSpread<T(!new)>(f: T -> T, g: T -> T, add: (T, T) -> T, neg: T -> T, zero: T, x: T, n: nat)
    requires Opposites(f, g, add, neg, zero)
    ensures Unspread(g, add, Spread(f, add, x), n) == add(x, neg(Iterate(g, x, n + 1)))
  {
    OppositesMeet(f, g, add, neg, zero, x, x);
    if n == 0 {
      assert Iterate(g, x, 1) == g(Iterate(g, x, 0)) == g(x);
    } else {
      UnspreadSpread(f, g, add, neg, zero, x, n - 1);
      var image := Iterate(g, x, n);
      OppositesMeet(f, g, add, neg, zero, x, neg(image));
      OppositesMeet(f, g, add, neg, zero, image, x);
      OppositesMeet(f, g, add, neg, zero, g(x), x);
      Cancel(add, neg, zero, x, g(x), neg(g(image)));
    }
  }

  lemma {:induction false} SpreadUnspread<T(!new)>(f: T -> T, g: T -> T, add: (T, T) -> T, neg: T -> T, zero: T, y: T, n: nat)
    requires Opposites(f, g, add, neg, zero)
    ensures Spread(f, add, Unspread(g, add, y, n)) == add(y, neg(Iterate(g, y, n + 1)))
  {
    OppositesMeet(f, g, add, neg, zero, y, y);
    if n == 0 {
      assert Iterate(g, y, 1) == g(Iterate(g, y, 0)) == g(y);
    } else {
      SpreadUnspread(f, g, add, neg, zero, y, n - 1);
      var u, image := Unspread(g, add, y, n - 1), Iterate(g, y, n);
      SpreadStep(f, g, add, neg, zero, y, u);
      OppositesMeet(f, g, add, neg, zero, y, neg(image));
      OppositesMeet(f, g, add, neg, zero, image, y);
      OppositesMeet(f, g, add, neg, zero, g(y), y);
      Cancel(add, neg, zero, y, g(y), neg(g(image)));
    }
  }

  lemma {:induction false} SpreadStep<T(!new)>(f: T -> T, g: T -> T, add: (T, T) -> T, neg: T -> T, zero: T, y: T, u: T)
    requires Opposites(f, g, add, neg, zero)
    ensures Spread(f, add, add(y, g(u))) == add(add(y, f(y)), g(add(u, f(u))))
  {
    OppositesMeet(f, g, add, neg, zero, u, f(u));
    OppositesMeet(f, g, add, neg, zero, g(u), u);
    assert HomAt(f, add, y, g(u));
    SumSwaps(add, y, g(u), f(y), f(g(u)));
    assert SwapsAt(add, y, g(u), f(y), f(g(u)));
  }

  // So where the (n+1)-st image is zero, unspreading n times is the inverse.
  lemma {:induction false} SpreadInverse<T(!new)>(f: T -> T, g: T -> T, add: (T, T) -> T, neg: T -> T, zero: T, x: T, n: nat)
    requires Opposites(f, g, add, neg, zero) && Iterate(g, x, n + 1) == zero
    ensures Unspread(g, add, Spread(f, add, x), n) == x
    ensures Spread(f, add, Unspread(g, add, x, n)) == x
  {
    UnspreadSpread(f, g, add, neg, zero, x, n);
    SpreadUnspread(f, g, add, neg, zero, x, n);
    assert OppositeAt(add, neg, zero, zero) && CommutesAt(add, zero, neg(zero));
    assert add(neg(zero), zero) == neg(zero) && add(x, zero) == x;
  }

  // Stages one after the other, and their inverses from the last to the first.
  function Through<T>(fs: seq<T -> T>, x: T): T {
    if fs == [] then x else Through(fs[1..], fs[0](x))
  }

  function Back<T>(gs: seq<T -> T>, y: T): T {
    if gs == [] then y else gs[0](Back(gs[1..], y))
  }

  lemma {:induction false} ThroughStep<T>(fs: seq<T -> T>, i: nat, x: T)
    requires i < |fs|
    ensures Through(fs[i..], x) == Through(fs[i + 1..], fs[i](x))
  {
    assert fs[i..][1..] == fs[i + 1..];
  }

  // The same from the other end: each stage applied to what the ones before it made.
  lemma {:induction false} ThroughIsNested<T>(fs: seq<T -> T>, x: T)
    ensures Through(fs, x) == FirstStages(fs, |fs|, x)
  {
    var y := x;
    for i := 0 to |fs|
      invariant Through(fs, x) == Through(fs[i..], y)
      invariant y == FirstStages(fs, i, x)
    {
      ThroughStep(fs, i, y);
      y := fs[i](y);
    }
  }

  function FirstStages<T>(fs: seq<T -> T>, n: nat, x: T): T
    requires n <= |fs|
  {
    if n == 0 then x else fs[n - 1](FirstStages(fs, n - 1, x))
  }

  lemma {:induction false} StagesInverse<T(!new)>(fs: seq<T -> T>, gs: seq<T -> T>, x: T)
    requires |fs| == |gs| && forall i :: 0 <= i < |fs| ==> Inverse(fs[i], gs[i])
    ensures Back(gs, Through(fs, x)) == x && Through(fs, Back(gs, x)) == x
    decreases |fs|
  {
    if fs != [] {
      StagesInverse(fs[1..], gs[1..], fs[0](x));
      StagesInverse(fs[1..], gs[1..], x);
      assert InverseAt(fs[0], gs[0], x) && InverseAt(fs[0], gs[0], Back(gs[1..], x));
    }
  }
}
