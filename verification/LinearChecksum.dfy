/** What makes a shift-register checksum detect errors, over any type of symbol. */
module LinearChecksum {
  const BITS: nat := 8

  function Iterate<T>(step: T -> T, x: T, n: nat): T {
    if n == 0 then x else step(Iterate(step, x, n - 1))
  }

  /** What the outer loop does with one symbol: mix it in, then shift. */
  function Update<T>(step: T -> T, xor: (T, T) -> T, crc: T, symbol: T): T {
    Iterate(step, xor(crc, symbol), BITS)
  }

  function Fold<T>(step: T -> T, xor: (T, T) -> T, init: T, data: seq<T>): T {
    if data == [] then init
    else Update(step, xor, Fold(step, xor, init, data[..|data| - 1]), data[|data| - 1])
  }

  /** One shift commutes with the mixing, and makes zero of nothing but zero. */
  ghost predicate Lossless<T(!new)>(step: T -> T, xor: (T, T) -> T, zero: T) {
    && (forall a, b :: step(xor(a, b)) == xor(step(a), step(b)))
    && (forall a :: step(a) == zero <==> a == zero)
  }

  /** The laws of exclusive or that matter. */
  ghost predicate Exclusive<T(!new)>(xor: (T, T) -> T, zero: T) {
    && (forall a, b :: xor(a, b) == zero <==> a == b)
    && (forall a, b, c, d :: xor(xor(a, b), xor(c, d)) == xor(xor(a, c), xor(b, d)))
  }

  /** A whole update commutes with the mixing too, and vanishes only where equals meet. */
  ghost predicate Sound<T(!new)>(step: T -> T, xor: (T, T) -> T, zero: T) {
    && (forall a, b :: xor(a, b) == zero <==> a == b)
    && (forall c, d, x, y {:trigger xor(Update(step, xor, c, x), Update(step, xor, d, y))} ::
          xor(Update(step, xor, c, x), Update(step, xor, d, y)) == Update(step, xor, xor(c, d), xor(x, y)))
    && (forall c, x :: Update(step, xor, c, x) == zero <==> c == x)
  }

  lemma {:induction false} IterateLinear<T(!new)>(step: T -> T, xor: (T, T) -> T, zero: T, a: T, b: T, n: nat)
    requires Lossless(step, xor, zero)
    ensures Iterate(step, xor(a, b), n) == xor(Iterate(step, a, n), Iterate(step, b, n))
  {
    if n > 0 {
      IterateLinear(step, xor, zero, a, b, n - 1);
    }
  }

  lemma {:induction false} IterateKeepsNonzero<T(!new)>(step: T -> T, xor: (T, T) -> T, zero: T, a: T, n: nat)
    requires Lossless(step, xor, zero)
    ensures Iterate(step, a, n) == zero <==> a == zero
  {
    if n > 0 {
      IterateKeepsNonzero(step, xor, zero, a, n - 1);
    }
  }

  lemma LosslessIsSound<T(!new)>(step: T -> T, xor: (T, T) -> T, zero: T)
    requires Lossless(step, xor, zero) && Exclusive(xor, zero)
    ensures Sound(step, xor, zero)
  {
    forall c, d, x, y
      ensures xor(Update(step, xor, c, x), Update(step, xor, d, y)) == Update(step, xor, xor(c, d), xor(x, y))
    {
    }
    forall c, x ensures Update(step, xor, c, x) == zero <==> c == x {
      IterateKeepsNonzero(step, xor, zero, xor(c, x), BITS);
    }
  }

  /** Where two messages of one length differ, and how. */
  function Differences<T>(xor: (T, T) -> T, a: seq<T>, b: seq<T>): (e: seq<T>)
    requires |a| == |b|
    ensures |e| == |a| && forall i :: 0 <= i < |a| ==> e[i] == xor(a[i], b[i])
  {
    seq(|a|, i requires 0 <= i < |a| => xor(a[i], b[i]))
  }

  /** The checksums differ by the checksum of the differences. */
  lemma {:induction false} FoldLinear<T(!new)>(step: T -> T, xor: (T, T) -> T, zero: T, c: T, d: T, a: seq<T>, b: seq<T>)
    requires Sound(step, xor, zero) && |a| == |b|
    ensures
      xor(Fold(step, xor, c, a), Fold(step, xor, d, b)) == Fold(step, xor, xor(c, d), Differences(xor, a, b))
  {
    if a != [] {
      var n := |a| - 1;
      FoldLinear(step, xor, zero, c, d, a[..n], b[..n]);
      assert Differences(xor, a, b)[..n] == Differences(xor, a[..n], b[..n]);
    }
  }

  /** Two messages of one length share a checksum exactly when their differences, started from zero, have none. */
  lemma CollidesExactly<T(!new)>(step: T -> T, xor: (T, T) -> T, zero: T, init: T, a: seq<T>, b: seq<T>)
    requires Sound(step, xor, zero) && |a| == |b|
    ensures
      Fold(step, xor, init, a) == Fold(step, xor, init, b)
      <==> Fold(step, xor, zero, Differences(xor, a, b)) == zero
  {
    FoldLinear(step, xor, zero, init, init, a, b);
  }

  /** Zeros in front change nothing. */
  lemma {:induction false} ZerosFold<T(!new)>(step: T -> T, xor: (T, T) -> T, zero: T, e: seq<T>)
    requires Sound(step, xor, zero) && forall i :: 0 <= i < |e| ==> e[i] == zero
    ensures Fold(step, xor, zero, e) == zero
  {
    if e != [] {
      ZerosFold(step, xor, zero, e[..|e| - 1]);
    }
  }

  /** Zeros behind neither hide nor invent a difference. */
  lemma {:induction false} ZeroTail<T(!new)>(step: T -> T, xor: (T, T) -> T, zero: T, e: seq<T>, q: nat)
    requires Sound(step, xor, zero) && q <= |e| && forall i :: q <= i < |e| ==> e[i] == zero
    ensures Fold(step, xor, zero, e) == zero <==> Fold(step, xor, zero, e[..q]) == zero
  {
    if q < |e| {
      var front := e[..|e| - 1];
      ZeroTail(step, xor, zero, front, q);
      assert front[..q] == e[..q];
    } else {
      assert e[..q] == e;
    }
  }

  /** The checksum of differences that begin at position p. */
  lemma FirstFold<T(!new)>(step: T -> T, xor: (T, T) -> T, zero: T, e: seq<T>, p: nat)
    requires Sound(step, xor, zero) && p < |e| && forall i :: 0 <= i < p ==> e[i] == zero
    ensures Fold(step, xor, zero, e[..p + 1]) == Update(step, xor, zero, e[p])
  {
    assert e[..p + 1][..p] == e[..p];
    ZerosFold(step, xor, zero, e[..p]);
  }

  /** The messages agree outside positions p to q - 1. */
  ghost predicate DifferWithin<T>(a: seq<T>, b: seq<T>, p: nat, q: nat) {
    |a| == |b| && p <= q <= |a| && forall i :: 0 <= i < |a| && !(p <= i < q) ==> a[i] == b[i]
  }

  /** An error within a single symbol. */
  lemma {:induction false} DetectsOne<T(!new)>(step: T -> T, xor: (T, T) -> T, zero: T, init: T, a: seq<T>, b: seq<T>, p: nat)
    requires Sound(step, xor, zero) && p < |a| && DifferWithin(a, b, p, p + 1) && a != b
    ensures Fold(step, xor, init, a) != Fold(step, xor, init, b)
  {
    var e := Differences(xor, a, b);
    CollidesExactly(step, xor, zero, init, a, b);
    ZeroTail(step, xor, zero, e, p + 1);
    FirstFold(step, xor, zero, e, p);
    assert a[p] != b[p];
  }

  /** An error within two neighbouring symbols goes unseen exactly when the second undoes the first, shifted. */
  lemma {:induction false} MissesTwoExactly<T(!new)>(step: T -> T, xor: (T, T) -> T, zero: T, init: T, a: seq<T>, b: seq<T>, p: nat)
    requires Sound(step, xor, zero) && p + 1 < |a| && DifferWithin(a, b, p, p + 2)
    ensures
      Fold(step, xor, init, a) == Fold(step, xor, init, b)
      <==> Update(step, xor, zero, xor(a[p], b[p])) == xor(a[p + 1], b[p + 1])
  {
    var e := Differences(xor, a, b);
    CollidesExactly(step, xor, zero, init, a, b);
    ZeroTail(step, xor, zero, e, p + 2);
    FirstFold(step, xor, zero, e, p);
    assert e[..p + 2][..p + 1] == e[..p + 1];
  }

  /** So errors that cannot undo each other are seen. */
  lemma DetectsTwo<T(!new)>(step: T -> T, xor: (T, T) -> T, zero: T, init: T, a: seq<T>, b: seq<T>, p: nat)
    requires Sound(step, xor, zero) && p + 1 < |a| && DifferWithin(a, b, p, p + 2) && a != b
    requires
      var e1, e2 := xor(a[p], b[p]), xor(a[p + 1], b[p + 1]);
      Update(step, xor, zero, e1) == e2 ==> e1 == zero && e2 == zero
    ensures Fold(step, xor, init, a) != Fold(step, xor, init, b)
  {
    MissesTwoExactly(step, xor, zero, init, a, b, p);
    assert a[p] != b[p] || a[p + 1] != b[p + 1];
  }
}
