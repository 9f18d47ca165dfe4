/**
  The two action-overlap figures: the Jaccard index of internal/eval/comparison.go, over sets of
  action types, and the overlap of internal/eval/replay.go, which counts repeated types.
 */
module Overlap {
  function TypeSet(actions: seq<string>): set<string> {
    set a | a in actions
  }

  predicate Distinct(actions: seq<string>) {
    forall i, j :: 0 <= i < j < |actions| ==> actions[i] != actions[j]
  }

  /** Intersection over union; two empty sets are identical. */
  function Jaccard(a: set<string>, b: set<string>): real {
    if a + b == {} then 1.0 else |a * b| as real / |a + b| as real
  }

  lemma UnionSize(a: set<string>, b: set<string>)
    ensures |a + b| == |a| + |b| - |a * b|
  {
    assert a + b == a + (b - a);
    assert b == (b - a) + a * b;
  }

  lemma TypeSetSnoc(front: seq<string>, last: string)
    ensures TypeSet(front + [last]) == TypeSet(front) + {last}
  {
  }

  /** The loops that fill a set with the action types of a list. */
  method CollectTypes(actions: seq<string>) returns (types: set<string>)
    ensures types == TypeSet(actions)
  {
    types := {};
    for i := 0 to |actions|
      invariant types == TypeSet(actions[..i])
    {
      TypeSetSnoc(actions[..i], actions[i]);
      assert actions[..i + 1] == actions[..i] + [actions[i]];
      types := types + {actions[i]};
    }
    assert actions[..|actions|] == actions;
  }

  lemma OneMoreCommon(done: set<string>, k: string, b: set<string>)
    requires k !in done
    ensures |(done + {k}) * b| == |done * b| + (if k in b then 1 else 0)
  {
    if k in b {
      assert (done + {k}) * b == done * b + {k};
    } else {
      assert (done + {k}) * b == done * b;
    }
  }

  /** The counting loop over a map, in any order. */
  method CountCommon(a: set<string>, b: set<string>) returns (common: nat)
    ensures common == |a * b|
  {
    common := 0;
    var pending := a;
    ghost var done: set<string> := {};
    assert done * b == {};
    while pending != {}
      invariant pending !! done && done + pending == a
      invariant common == |done * b|
    {
      var k :| k in pending;
      OneMoreCommon(done, k, b);
      pending := pending - {k};
      done := done + {k};
      if k in b {
        common := common + 1;
      }
    }
    assert done == a;
  }

  /** jaccardIndex. */
  method JaccardIndex(a: seq<string>, b: seq<string>) returns (index: real)
    ensures index == Jaccard(TypeSet(a), TypeSet(b))
    ensures var common, all := set x | x in a && x in b, set x | x in a + b;
      index == if all == {} then 1.0 else |common| as real / |all| as real
  {
    assert (set x | x in a && x in b) == TypeSet(a) * TypeSet(b);
    assert (set x | x in a + b) == TypeSet(a) + TypeSet(b);
    var setA := CollectTypes(a);
    var setB := CollectTypes(b);
    var intersection := CountCommon(setA, setB);
    var union := |setA| + |setB| - intersection;
    UnionSize(setA, setB);
    if union == 0 {
      assert setA + setB == {};
      return 1.0;
    }
    assert setA + setB != {};
    return intersection as real / union as real;
  }

  /** The index is symmetric, lies in [0, 1], and is 1 exactly for equal sets of types. */
  lemma JaccardProperties(a: set<string>, b: set<string>)
    ensures Jaccard(a, b) == Jaccard(b, a)
    ensures 0.0 <= Jaccard(a, b) <= 1.0
    ensures Jaccard(a, b) == 1.0 <==> a == b
  {
    assert a * b == b * a && a + b == b + a;
    if a + b != {} {
      assert a * b <= a + b;
      SubsetSize(a * b, a + b);
      var m, n := |a * b|, |a + b|;
      Ratio(m, n);
      if m == n {
        assert a * b == a + b;
        assert a == b;
      }
    } else {
      assert a == {} && b == {};
    }
  }

  lemma SubsetSize(x: set<string>, y: set<string>)
    requires x <= y
    ensures |x| <= |y| && (|x| == |y| <==> x == y)
  {
    assert y == x + (y - x);
  }

  lemma Ratio(m: nat, n: nat)
    requires n > 0
    ensures (m as real / n as real <= 1.0 <==> m <= n) && (m as real / n as real == 1.0 <==> m == n)
            && m as real / n as real >= 0.0
  {
  }

  // ---------------------------------------------------------------- the replay diff

  /** How many replayed actions have a type among the original ones, repeats included. */
  function Matches(original: seq<string>, replayed: seq<string>): nat {
    if replayed == [] then 0
    else
      Matches(original, replayed[..|replayed| - 1]) + (if replayed[|replayed| - 1] in original then 1 else 0)
  }

  /** Action by action. */
  lemma MatchesAre(original: seq<string>, replayed: seq<string>, action: string)
    ensures Matches(original, []) == 0
    ensures Matches(original, replayed + [action])
            == Matches(original, replayed) + (if action in original then 1 else 0)
  {
    assert (replayed + [action])[..|replayed|] == replayed;
  }

  /** The ActionOverlap part of computeDecisionDiff; it never divides by zero. */
  method ActionOverlap(original: seq<string>, replayed: seq<string>) returns (overlap: real)
    ensures overlap == Overlapping(original, replayed)
    ensures var m := Matches(original, replayed);
      overlap == if |original| + |replayed| > m then m as real / (|original| + |replayed| - m) as real else 1.0
  {
    var origActions := CollectTypes(original);
    var matchCount: nat := 0;
    for i := 0 to |replayed|
      invariant matchCount == Matches(original, replayed[..i])
    {
      assert replayed[..i + 1][..i] == replayed[..i];
      if replayed[i] in origActions {
        matchCount := matchCount + 1;
      }
    }
    assert replayed[..|replayed|] == replayed;
    var union := |original| + |replayed| - matchCount;
    if union > 0 {
      overlap := matchCount as real / union as real;
    } else {
      overlap := 1.0;
    }
  }

  function Overlapping(original: seq<string>, replayed: seq<string>): real {
    var m := Matches(original, replayed);
    var union := |original| + |replayed| - m;
    if union > 0 then m as real / union as real else 1.0
  }

  lemma {:induction false} MatchesBounds(original: seq<string>, replayed: seq<string>)
    ensures Matches(original, replayed) <= |replayed|
    ensures original == [] ==> Matches(original, replayed) == 0
  {
    if replayed != [] {
      MatchesBounds(original, replayed[..|replayed| - 1]);
    }
  }

  /** Repeated occurrences among the replayed actions of types that the original has too. */
  function Surplus(original: seq<string>, replayed: seq<string>): nat {
    if replayed == [] then 0
    else
      var front, last := replayed[..|replayed| - 1], replayed[|replayed| - 1];
      Surplus(original, front) + (if last in original && last in front then 1 else 0)
  }

  /** Replayed actions of types that the original does not have. */
  function Foreign(original: seq<string>, replayed: seq<string>): nat {
    if replayed == [] then 0
    else
      var front, last := replayed[..|replayed| - 1], replayed[|replayed| - 1];
      Foreign(original, front) + (if last in original then 0 else 1)
  }

  function CommonTypes(original: seq<string>, replayed: seq<string>): nat {
    |TypeSet(original) * TypeSet(replayed)|
  }

  /** Matches are the common types, once each, and their repetitions; all other replayed actions are foreign. */
  lemma {:induction false} MatchesSplit(original: seq<string>, replayed: seq<string>)
    ensures Matches(original, replayed) == CommonTypes(original, replayed) + Surplus(original, replayed)
    ensures Matches(original, replayed) + Foreign(original, replayed) == |replayed|
  {
    var a, b := TypeSet(original), TypeSet(replayed);
    if replayed == [] {
      assert a * b == {};
    } else {
      var front, last := replayed[..|replayed| - 1], replayed[|replayed| - 1];
      MatchesSplit(original, front);
      assert replayed == front + [last];
      TypeSetSnoc(front, last);
      assert a * b == b * a && a * TypeSet(front) == TypeSet(front) * a;
      if last in front {
        assert b == TypeSet(front);
      } else {
        OneMoreCommon(TypeSet(front), last, a);
      }
    }
  }

  /** There is no surplus exactly when no shared type is replayed twice. */
  lemma {:induction false} NoSurplusIff(original: seq<string>, replayed: seq<string>)
    ensures Surplus(original, replayed) == 0
            <==> forall i, j :: 0 <= i < j < |replayed| && replayed[i] in original ==> replayed[i] != replayed[j]
  {
    if replayed != [] {
      var n := |replayed| - 1;
      NoSurplusIff(original, replayed[..n]);
      if replayed[n] in replayed[..n] {
        var i :| 0 <= i < n && replayed[i] == replayed[n];
      }
    }
  }

  /**
    Exactly when the overlap stays within 1: the repetitions of shared types are no more than the
    actions either side does not share, repetitions in the original included.
   */
  lemma OverlapAtMostOneIff(original: seq<string>, replayed: seq<string>)
    ensures Overlapping(original, replayed) <= 1.0
            <==> Surplus(original, replayed)
                 <= |original| - CommonTypes(original, replayed) + Foreign(original, replayed)
  {
    MatchesBounds(original, replayed);
    MatchesSplit(original, replayed);
    var m := Matches(original, replayed);
    var union := |original| + |replayed| - m;
    if union > 0 {
      Ratio(m, union);
    }
  }

  /** Replaying no shared type twice keeps the overlap within 1. */
  lemma DistinctReplayWithinOne(original: seq<string>, replayed: seq<string>)
    requires forall i, j :: 0 <= i < j < |replayed| && replayed[i] in original ==> replayed[i] != replayed[j]
    ensures Overlapping(original, replayed) <= 1.0
  {
    NoSurplusIff(original, replayed);
    TypeSetSize(original);
    SubsetSize(TypeSet(original) * TypeSet(replayed), TypeSet(original));
    OverlapAtMostOneIff(original, replayed);
  }

  lemma {:induction false} TypeSetSize(actions: seq<string>)
    ensures |TypeSet(actions)| <= |actions|
    ensures Distinct(actions) ==> |TypeSet(actions)| == |actions|
  {
    if actions != [] {
      var front, last := actions[..|actions| - 1], actions[|actions| - 1];
      TypeSetSize(front);
      assert actions == front + [last];
      TypeSetSnoc(front, last);
    }
  }

  /** Repeating one action type is enough to exceed 1. */
  lemma RepeatsExceedOne()
    ensures Overlapping(["notify_owner"], ["notify_owner", "notify_owner"]) == 2.0
  {
    var twice := ["notify_owner", "notify_owner"];
    assert twice[..1] == ["notify_owner"] && twice[..1][..0] == [];
    assert Matches(["notify_owner"], twice) == 2;
  }

  /** Without repeats on either side the two figures agree. */
  lemma OverlapsAgree(original: seq<string>, replayed: seq<string>)
    requires Distinct(original) && Distinct(replayed)
    ensures Overlapping(original, replayed) == Jaccard(TypeSet(original), TypeSet(replayed))
  {
    var a, b := TypeSet(original), TypeSet(replayed);
    MatchesSplit(original, replayed);
    NoSurplusIff(original, replayed);
    TypeSetSize(original);
    TypeSetSize(replayed);
    UnionSize(a, b);
    if a + b == {} {
      assert |a| == 0 && |b| == 0;
    }
  }
}
