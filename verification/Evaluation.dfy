/**
  The decision evaluator (internal/eval/decision_eval.go): nine yes-or-no dimensions and a threshold
  on their average.
 */
module Evaluation {
  import opened Wrappers
  import opened Decisions

  function LowerChar(c: char): char {
    if 'A' <= c <= 'Z' then (c as int + 32) as char else c
  }

  /** Only the comparison with ASCII words matters, so ASCII lower-casing decides it. */
  function Lower(s: string): string {
    seq(|s|, i requires 0 <= i < |s| => LowerChar(s[i]))
  }

  predicate CatchAll(actionType: string) {
    Lower(actionType) in ["", "default", "all", "any"]
  }

  /** The nine checks, in order. */
  ghost function Checks(o: Output, allowed: seq<string>): seq<bool> {
    var some := |o.actions| > 0;
    var safe := forall a :: a in o.actions ==> a.actionType in allowed;
    [ValidOutput(Some(o), allowed),
     some && safe,
     safe,
     o.requiresReview,
     |o.summary| >= 10,
     |o.rationale| > 0,
     some && forall a :: a in o.actions ==> !CatchAll(a.actionType),
     some && forall a :: a in o.actions ==> a.ownerRole != "",
     some && safe]
  }

  /** The nine dimensions one by one. */
  lemma ChecksAre(o: Output, allowed: seq<string>)
    ensures var c := Checks(o, allowed);
      && |c| == 9 && c[0] == ValidOutput(Some(o), allowed)
      && (c[1] <==> o.actions != [] && forall i :: 0 <= i < |o.actions| ==> o.actions[i].actionType in allowed)
      && (c[2] <==> forall i :: 0 <= i < |o.actions| ==> o.actions[i].actionType in allowed)
      && c[3] == o.requiresReview && c[4] == (|o.summary| >= 10) && c[5] == (o.rationale != [])
      && (c[6] <==> o.actions != [] && forall i :: 0 <= i < |o.actions| ==>
            Lower(o.actions[i].actionType) !in {"", "default", "all", "any"})
      && (c[7] <==> o.actions != [] && forall i :: 0 <= i < |o.actions| ==> o.actions[i].ownerRole != "")
      && c[8] == c[1]
  {
    assert forall i :: 0 <= i < |o.actions| ==> o.actions[i] in o.actions;
  }

  lemma LowerIs(s: string, i: nat)
    requires i < |s|
    ensures |Lower(s)| == |s|
    ensures Lower(s)[i] == if 'A' <= s[i] <= 'Z' then 'a' + (s[i] - 'A') else s[i]
  {
  }

  function CountTrue(checks: seq<bool>): nat {
    if checks == [] then 0 else CountTrue(checks[..|checks| - 1]) + (if checks[|checks| - 1] then 1 else 0)
  }

  method AllActions(actions: seq<Action>, ok: Action -> bool) returns (all: bool)
    ensures all <==> forall a :: a in actions ==> ok(a)
  {
    for i := 0 to |actions|
      invariant forall a :: a in actions[..i] ==> ok(a)
    {
      if !ok(actions[i]) {
        assert actions[i] in actions;
        return false;
      }
    }
    assert actions[..|actions|] == actions;
    return true;
  }

  /** evaluateDimensions: the pass flags of the nine dimensions; a missing output fails them all. */
  method EvaluateDimensions(output: Option<Output>, allowed: seq<string>) returns (passed: seq<bool>)
    ensures |passed| == 9
    ensures output.None? ==> forall i :: 0 <= i < 9 ==> !passed[i]
    ensures output.Some? ==> passed == Checks(output.value, allowed)
  {
    if output.None? {
      return [false, false, false, false, false, false, false, false, false];
    }
    var o := output.value;
    var errors := ValidateDecision(output, allowed);
    var some := |o.actions| > 0;
    var safe := AllActions(o.actions, (a: Action) => a.actionType in allowed);
    var specific := AllActions(o.actions, (a: Action) => !CatchAll(a.actionType));
    var owned := AllActions(o.actions, (a: Action) => a.ownerRole != "");
    assert safe <==> forall a :: a in o.actions ==> a.actionType in allowed;
    assert specific <==> forall a :: a in o.actions ==> !CatchAll(a.actionType);
    assert owned <==> forall a :: a in o.actions ==> a.ownerRole != "";
    passed := [errors == [], some && safe, safe, o.requiresReview, |o.summary| >= 10, |o.rationale| > 0,
               some && specific, some && owned, some && safe];
  }

  /** Evaluate: the average of the scores, compared with 0.75. */
  method Evaluate(output: Option<Output>, allowed: seq<string>) returns (pass: bool, score: real)
    ensures output.None? ==> !pass && score == 0.0
    ensures output.Some? ==> pass == (CountTrue(Checks(output.value, allowed)) >= 7)
    ensures output.Some? ==> score * 9.0 == CountTrue(Checks(output.value, allowed)) as real
  {
    var passed := EvaluateDimensions(output, allowed);
    var total := 0.0;
    ghost var count: nat := 0;
    for i := 0 to |passed|
      invariant total == count as real && count == CountTrue(passed[..i])
      invariant output.None? ==> count == 0
    {
      assert passed[..i + 1][..i] == passed[..i];
      total := total + (if passed[i] then 1.0 else 0.0);
      count := count + (if passed[i] then 1 else 0);
    }
    assert passed[..|passed|] == passed;
    score := total / (|passed| as real);
    pass := !(score < 0.75);
    SevenOfNine(count);
  }

  lemma SevenOfNine(count: nat)
    ensures count as real / 9.0 >= 0.75 <==> count >= 7
  {
  }

  lemma {:induction false} CountNine(c: seq<bool>)
    requires |c| == 9
    ensures CountTrue(c)
            == Bit(c[0]) + Bit(c[1]) + Bit(c[2]) + Bit(c[3]) + Bit(c[4]) + Bit(c[5]) + Bit(c[6]) + Bit(c[7]) + Bit(c[8])
  {
    CountFront(c, 9); CountFront(c, 8); CountFront(c, 7);
    CountFront(c, 6); CountFront(c, 5); CountFront(c, 4);
    CountFront(c, 3); CountFront(c, 2); CountFront(c, 1);
    assert c[..9] == c;
  }

  function Bit(b: bool): nat { if b then 1 else 0 }

  lemma CountFront(c: seq<bool>, n: nat)
    requires 0 < n <= |c|
    ensures CountTrue(c[..n]) == CountTrue(c[..n - 1]) + Bit(c[n - 1])
  {
    assert c[..n][..n - 1] == c[..n - 1];
  }

  lemma KnownActionsAreSpecific(actionType: string)
    requires actionType in ACTION_TYPES
    ensures !CatchAll(actionType)
  {
    assert |Lower(actionType)| == |actionType| > 10;
  }

  /**
    What the score adds to the schema: a valid output that recommends something already passes six
    dimensions, so it passes exactly if its summary is substantive, or it gives a rationale, or every
    action names an owner.
   */
  lemma ValidOutputPassesIff(o: Output, allowed: seq<string>)
    requires ValidOutput(Some(o), allowed) && o.actions != []
    ensures CountTrue(Checks(o, allowed)) >= 7
            <==> |o.summary| >= 10 || o.rationale != [] || forall a :: a in o.actions ==> a.ownerRole != ""
  {
    var c := Checks(o, allowed);
    forall a | a in o.actions ensures !CatchAll(a.actionType) {
      KnownActionsAreSpecific(a.actionType);
    }
    CountNine(c);
  }
}
