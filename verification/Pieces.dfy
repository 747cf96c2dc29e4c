/** Sequences cut into, joined from, and overwritten with pieces; sizes of sets. */
module Pieces {
  import Radix

  function Join<T>(ps: seq<seq<T>>): seq<T> {
    if ps == [] then [] else Join(ps[..|ps| - 1]) + ps[|ps| - 1]
  }

  ghost predicate Uniform<T>(ps: seq<seq<T>>, len: nat) {
    forall i :: 0 <= i < |ps| ==> |ps[i]| == len
  }

  lemma {:induction false} JoinLen<T>(ps: seq<seq<T>>, len: nat)
    requires Uniform(ps, len)
    ensures |Join(ps)| == |ps| * len
  {
    if ps != [] {
      JoinLen(ps[..|ps| - 1], len);
      Radix.Distribute(|ps| - 1, 1, len);
    }
  }

  /** Element x of piece t. */
  lemma {:induction false} JoinAt<T>(ps: seq<seq<T>>, len: nat, t: nat, x: nat)
    requires Uniform(ps, len) && t < |ps| && x < len
    ensures 0 <= t * len + x < |Join(ps)| && Join(ps)[t * len + x] == ps[t][x]
  {
    var n := |ps| - 1;
    JoinLen(ps[..n], len);
    if t < n {
      JoinAt(ps[..n], len, t, x);
    }
  }

  function Piece<T>(s: seq<T>, len: nat, t: nat): (r: seq<T>)
    requires (t + 1) * len <= |s|
    ensures |r| == len
  {
    Radix.Distribute(t, 1, len);
    s[t * len..(t + 1) * len]
  }

  lemma PieceIs<T>(s: seq<T>, len: nat, t: nat)
    requires (t + 1) * len <= |s|
    ensures 0 <= t * len && t * len + len <= |s|
    ensures Piece(s, len, t) == s[t * len..t * len + len]
  {
    Radix.Distribute(t, 1, len);
  }

  lemma PieceAt<T>(s: seq<T>, len: nat, t: nat, x: nat)
    requires (t + 1) * len <= |s| && x < len
    ensures 0 <= t * len + x < |s| && Piece(s, len, t)[x] == s[t * len + x]
  {
    Radix.Distribute(t, 1, len);
  }

  lemma SliceSlice<T>(s: seq<T>, off: nat, len: nat, a: nat, b: nat)
    requires off + len <= |s| && a <= b <= len
    ensures s[off..off + len][a..b] == s[off + a..off + b]
  {
    var u, v := s[off..off + len][a..b], s[off + a..off + b];
    assert |u| == |v| && forall i :: 0 <= i < |u| ==> u[i] == v[i];
  }

  /** dst with the elements of v in place from off on, as memcpy leaves it. */
  function Overwrite<T>(dst: seq<T>, off: nat, v: seq<T>): (r: seq<T>)
    requires off + |v| <= |dst|
    ensures |r| == |dst|
  {
    dst[..off] + v + dst[off + |v|..]
  }

  lemma SubsetSize<T>(a: set<T>, b: set<T>)
    requires a <= b
    ensures |a| <= |b|
  {
    assert b == a + (b - a);
  }
}
