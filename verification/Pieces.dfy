/** Where pieces stand in what they were put together into: text or bytes. */
module Pieces {
  /** The first `n` elements of `piece` stand in `b` at `at`. */
  predicate Agrees<T(==)>(b: seq<T>, at: nat, piece: seq<T>, n: nat)
    requires n <= |piece| && at + |piece| <= |b|
  {
    n == 0 || (b[at + n - 1] == piece[n - 1] && Agrees(b, at, piece, n - 1))
  }

  /** `piece` stands in `b` at `at`. */
  predicate Holds<T(==)>(b: seq<T>, at: nat, piece: seq<T>) {
    at + |piece| <= |b| && Agrees(b, at, piece, |piece|)
  }

  lemma {:induction false} AgreesAll<T>(b: seq<T>, at: nat, piece: seq<T>, n: nat)
    requires n <= |piece| && at + |piece| <= |b|
    ensures Agrees(b, at, piece, n) <==> forall k {:trigger piece[k]} :: 0 <= k < n ==> b[at + k] == piece[k]
  {
    if n > 0 {
      AgreesAll(b, at, piece, n - 1);
    }
  }

  lemma HoldsHeld<T>(b: seq<T>, at: nat, piece: seq<T>, inner: nat, x: seq<T>)
    requires Holds(b, at, piece) && Holds(piece, inner, x)
    ensures Holds(b, at + inner, x)
  {
    AgreesAll(b, at, piece, |piece|);
    AgreesAll(piece, inner, x, |x|);
    AgreesAll(b, at + inner, x, |x|);
    forall k | 0 <= k < |x| ensures b[at + inner + k] == x[k] {
      assert piece[inner + k] == x[k];
    }
  }

  lemma HoldsLast<T>(before: seq<T>, piece: seq<T>)
    ensures Holds(before + piece, |before|, piece)
  {
    AgreesAll(before + piece, |before|, piece, |piece|);
  }

  lemma HoldsFirst<T>(piece: seq<T>, after: seq<T>)
    ensures Holds(piece + after, 0, piece)
  {
    AgreesAll(piece + after, 0, piece, |piece|);
  }

  lemma HoldsLonger<T>(before: seq<T>, b: seq<T>, at: nat, piece: seq<T>, after: seq<T>)
    requires Holds(b, at, piece)
    ensures Holds(b + after, at, piece) && Holds(before + b, |before| + at, piece)
  {
    HoldsFirst(b, after);
    HoldsHeld(b + after, 0, b, at, piece);
    HoldsLast(before, b);
    HoldsHeld(before + b, |before|, b, at, piece);
  }

  /** A piece of two parts. */
  lemma HoldsPair<T>(b: seq<T>, at: nat, x: seq<T>, y: seq<T>)
    ensures Holds(b, at, x + y) <==> Holds(b, at, x) && Holds(b, at + |x|, y)
  {
    if at + |x| + |y| <= |b| {
      AgreesAll(b, at, x + y, |x + y|);
      AgreesAll(b, at, x, |x|);
      AgreesAll(b, at + |x|, y, |y|);
      if Holds(b, at, x) && Holds(b, at + |x|, y) {
        forall k | 0 <= k < |x + y| ensures b[at + k] == (x + y)[k] {
          if k >= |x| { assert b[at + |x| + (k - |x|)] == y[k - |x|]; }
        }
      } else if Holds(b, at, x + y) {
        forall k | 0 <= k < |y| ensures b[at + |x| + k] == y[k] {
          assert (x + y)[|x| + k] == y[k];
        }
        forall k | 0 <= k < |x| ensures b[at + k] == x[k] {
          assert (x + y)[k] == x[k];
        }
      }
    }
  }

  /** Where things stand in three parts. */
  lemma HoldsThree<T>(x: seq<T>, y: seq<T>, z: seq<T>, at: nat, piece: seq<T>)
    requires Holds(x, at, piece)
    ensures Holds(x + y + z, at, piece) && Holds(x + y + z, |x|, y) && Holds(x + y + z, |x| + |y|, z)
  {
    HoldsLonger([], x, at, piece, y);
    HoldsLonger([], x + y, at, piece, z);
    HoldsLast(x, y);
    HoldsLonger([], x + y, |x|, y, z);
    HoldsLast(x + y, z);
  }

  /** `Buffer.concat`: the first `n` buffers one after the other. */
  function Concat<T>(buffers: seq<seq<T>>, n: nat): seq<T>
    requires n <= |buffers|
  {
    if n == 0 then [] else Concat(buffers, n - 1) + buffers[n - 1]
  }

  /** Every buffer stands where the buffers before it end. */
  lemma {:induction false} ConcatHeld<T>(buffers: seq<seq<T>>, k: nat, n: nat)
    requires k < n <= |buffers|
    ensures Holds(Concat(buffers, n), |Concat(buffers, k)|, buffers[k])
    decreases n
  {
    if k < n - 1 {
      ConcatHeld(buffers, k, n - 1);
      HoldsLonger([], Concat(buffers, n - 1), |Concat(buffers, k)|, buffers[k], buffers[n - 1]);
    } else {
      HoldsLast(Concat(buffers, k), buffers[k]);
    }
  }

  lemma {:induction false} ConcatMore<T>(buffers: seq<seq<T>>, more: seq<T>, n: nat)
    requires n <= |buffers|
    ensures Concat(buffers + [more], n) == Concat(buffers, n)
    ensures n == |buffers| ==> Concat(buffers + [more], n + 1) == Concat(buffers, n) + more
  {
    if n > 0 {
      ConcatMore(buffers, more, n - 1);
      assert (buffers + [more])[n - 1] == buffers[n - 1];
    }
  }
}
