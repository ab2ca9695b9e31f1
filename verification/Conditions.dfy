/** The list of conditions in a status, shared by the backup and the restore controller. */
module Conditions {

  datatype Condition = Condition(ctype: string, status: bool, reason: string, message: string)

  const READY := "Ready"

  predicate HasReady(cs: seq<Condition>) {
    exists i :: 0 <= i < |cs| && cs[i].ctype == READY
  }

  /** The list with its first Ready condition replaced, or with one added. */
  function WithReady(cs: seq<Condition>, c: Condition): seq<Condition>
    requires c.ctype == READY
  {
    if cs == [] then [c]
    else if cs[0].ctype == READY then [c] + cs[1..]
    else [cs[0]] + WithReady(cs[1..], c)
  }

  /** How many Ready conditions a list has. */
  function ReadyCount(cs: seq<Condition>): nat {
    if cs == [] then 0 else (if cs[0].ctype == READY then 1 else 0) + ReadyCount(cs[1..])
  }

  /** Updating never duplicates Ready: a list with at most one ends with exactly one, the new one,
      and every other condition keeps its place. */
  lemma {:induction false} WithReadyKeepsOne(cs: seq<Condition>, c: Condition)
    requires c.ctype == READY && ReadyCount(cs) <= 1
    ensures var after := WithReady(cs, c);
            && ReadyCount(after) == 1 && |cs| <= |after| <= |cs| + 1
            && (forall i :: 0 <= i < |after| && after[i].ctype == READY ==> after[i] == c)
            && (forall i :: 0 <= i < |cs| && cs[i].ctype != READY ==> after[i] == cs[i])
  {
    if cs != [] {
      if cs[0].ctype == READY {
        NoReady(cs[1..]);
      } else {
        WithReadyKeepsOne(cs[1..], c);
        var after, rest := WithReady(cs, c), WithReady(cs[1..], c);
        assert after[1..] == rest;
      }
    } else {
      assert WithReady(cs, c)[1..] == [];
    }
  }

  lemma {:induction false} NoReady(cs: seq<Condition>)
    requires ReadyCount(cs) == 0
    ensures forall i :: 0 <= i < |cs| ==> cs[i].ctype != READY
  {
    if cs != [] {
      NoReady(cs[1..]);
    }
  }

  /** The loop of updateBackupStatus and updateRestoreStatus, on the list in place. */
  method UpdateReady(conditions: seq<Condition>, condition: Condition) returns (updated: seq<Condition>)
    requires condition.ctype == READY
    ensures updated == WithReady(conditions, condition)
  {
    var found := false;
    updated := conditions;
    for i := 0 to |conditions|
      invariant !found && updated == conditions
      invariant WithReady(conditions, condition) == conditions[..i] + WithReady(conditions[i..], condition)
    {
      if conditions[i].ctype == READY {
        updated := conditions[i := condition];
        found := true;
        break;
      }
      assert conditions[i..][1..] == conditions[i + 1..];
    }
    if !found {
      updated := updated + [condition];
    }
  }
}
