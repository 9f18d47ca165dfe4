/** The optional value and the success-or-failure value shared by every module. */
module Wrappers {

  datatype Option<+T> = None | Some(value: T) {
    function GetOr(default: T): T {
      match this
      case Some(v) => v
      case None => default
    }
  }

  datatype Result<+T, +E> = Ok(value: T) | Err(error: E)

  /** The first n elements of s, or all of them when there are fewer. */
  function Take<T>(s: seq<T>, n: nat): (r: seq<T>)
    ensures r <= s && (|r| == n || (r == s && |s| < n))
    ensures forall x :: x in r ==> x in s
  {
    if n < |s| then s[..n] else s
  }

  /** The elements of s that satisfy p, in order. */
  function Filter<T>(s: seq<T>, p: T -> bool): (r: seq<T>)
    ensures |r| <= |s|
  {
    if s == [] then []
    else if p(s[0]) then [s[0]] + Filter(s[1..], p)
    else Filter(s[1..], p)
  }

  lemma {:induction false} FilterConcat<T>(a: seq<T>, b: seq<T>, p: T -> bool)
    ensures Filter(a + b, p) == Filter(a, p) + Filter(b, p)
  {
    if a == [] {
      assert a + b == b;
    } else {
      assert (a + b)[1..] == a[1..] + b;
      FilterConcat(a[1..], b, p);
    }
  }

  lemma {:induction false} FilterAlike<T>(s: seq<T>, p: T -> bool, q: T -> bool)
    requires forall x :: x in s ==> p(x) == q(x)
    ensures Filter(s, p) == Filter(s, q)
  {
    if s != [] {
      assert s[0] in s && forall x :: x in s[1..] ==> x in s;
      FilterAlike(s[1..], p, q);
    }
  }

  /** Filter keeps everything exactly when everything satisfies the predicate. */
  lemma {:induction false} FilterAll<T>(s: seq<T>, p: T -> bool)
    ensures |Filter(s, p)| == |s| <==> forall x :: x in s ==> p(x)
    ensures |Filter(s, p)| == |s| ==> Filter(s, p) == s
  {
    if s != [] {
      FilterAll(s[1..], p);
      assert s == [s[0]] + s[1..];
    }
  }

  /** Filter keeps nothing exactly when nothing satisfies the predicate. */
  lemma {:induction false} FilterNone<T>(s: seq<T>, p: T -> bool)
    ensures Filter(s, p) == [] <==> forall x :: x in s ==> !p(x)
  {
    if s != [] {
      FilterNone(s[1..], p);
      assert s == [s[0]] + s[1..];
    }
  }

  /** The positions below n that satisfy p, in increasing order. */
  function Positions(n: nat, p: nat -> bool): (r: seq<nat>)
    ensures |r| <= n && forall i :: i in r ==> i < n
  {
    if n == 0 then [] else Positions(n - 1, p) + (if p(n - 1) then [n - 1] else [])
  }

  /** Positions lists exactly the satisfying positions, each once and in order. */
  lemma {:induction false} PositionsExact(n: nat, p: nat -> bool)
    ensures forall i: nat :: i in Positions(n, p) <==> i < n && p(i)
    ensures forall j, k :: 0 <= j < k < |Positions(n, p)| ==> Positions(n, p)[j] < Positions(n, p)[k]
  {
    if n > 0 {
      PositionsExact(n - 1, p);
      var shorter := Positions(n - 1, p);
      assert forall k :: 0 <= k < |shorter| ==> shorter[k] in shorter;
    }
  }

  lemma {:induction false} PositionsGrow(m: nat, n: nat, p: nat -> bool)
    requires m <= n
    ensures Positions(m, p) <= Positions(n, p)
    decreases n
  {
    if m < n {
      PositionsGrow(m, n - 1, p);
    }
  }
}
