// Conditions and workload statuses: how the reconciler folds news into a resource's status.
module Status {
  import opened Prelude

  // A metav1.Time; 0 is the zero time.
  type Time = nat

  datatype Condition = Condition(
    kind: string,
    status: string,
    observedGeneration: int,
    reason: string,
    message: string,
    lastTransitionTime: Time)

  // --- replaceCondition --------------------------------------------------------------------

  // The first condition of a type, or |conds|.
  function TypeIndex(conds: seq<Condition>, kind: string): (r: nat)
    ensures r <= |conds|
    ensures forall j :: 0 <= j < r ==> conds[j].kind != kind
    ensures r < |conds| ==> conds[r].kind == kind
  {
    FirstWhere(conds, (c: Condition) => c.kind == kind, 0)
  }

  // findCondition.
  function FindCondition(conds: seq<Condition>, kind: string): Option<Condition> {
    var i := TypeIndex(conds, kind);
    if i < |conds| then Some(conds[i]) else None
  }

  // The time a new condition gets in place of an old one.
  function TransitionTime(old_: Condition, newC: Condition, now: Time): Time {
    if old_.status == newC.status && old_.lastTransitionTime != 0 then old_.lastTransitionTime else now
  }

  function Replaced(conds: seq<Condition>, newC: Condition, now: Time): seq<Condition> {
    var i := TypeIndex(conds, newC.kind);
    if i < |conds| then conds[i := newC.(lastTransitionTime := TransitionTime(conds[i], newC, now))]
    else conds + [newC.(lastTransitionTime := now)]
  }

  // A slice with room for one more element is modelled by a new array.
  method ReplaceCondition(conds: array<Condition>, newC: Condition, now: Time) returns (r: array<Condition>)
    modifies conds
    ensures r[..] == Replaced(old(conds[..]), newC, now)
    ensures if TypeIndex(old(conds[..]), newC.kind) < conds.Length then r == conds else fresh(r) && conds[..] == old(conds[..])
  {
    ghost var before := conds[..];
    for i := 0 to conds.Length
      invariant conds[..] == before
      invariant forall j :: 0 <= j < i ==> before[j].kind != newC.kind
    {
      if conds[i].kind == newC.kind {
        assert i == TypeIndex(before, newC.kind);
        conds[i] := newC.(lastTransitionTime := TransitionTime(conds[i], newC, now));
        return conds;
      }
    }
    assert TypeIndex(before, newC.kind) == |before|;
    r := new Condition[conds.Length + 1](i requires 0 <= i <= conds.Length reads conds =>
      if i < conds.Length then conds[i] else newC.(lastTransitionTime := now));
  }

  ghost predicate TypesUnique(conds: seq<Condition>) {
    forall i, j :: 0 <= i < j < |conds| ==> conds[i].kind != conds[j].kind
  }

  // Types stay unique; conditions of other types keep their value and place.
  lemma {:induction false} ReplacedFrame(conds: seq<Condition>, newC: Condition, now: Time)
    ensures TypesUnique(conds) ==> TypesUnique(Replaced(conds, newC, now))
    ensures |conds| <= |Replaced(conds, newC, now)| <= |conds| + 1
    ensures forall i :: 0 <= i < |conds| && conds[i].kind != newC.kind ==> Replaced(conds, newC, now)[i] == conds[i]
    ensures forall i :: 0 <= i < |conds| ==> Replaced(conds, newC, now)[i].kind == conds[i].kind
    ensures forall kind :: kind != newC.kind ==>
              FindCondition(Replaced(conds, newC, now), kind) == FindCondition(conds, kind)
    ensures FindCondition(Replaced(conds, newC, now), newC.kind).Some?
    ensures var c := FindCondition(Replaced(conds, newC, now), newC.kind).value;
            c == newC.(lastTransitionTime := c.lastTransitionTime)
  {
    var r := Replaced(conds, newC, now);
    var i := TypeIndex(conds, newC.kind);
    assert forall j :: 0 <= j < |conds| && j != i ==> r[j] == conds[j];
    assert i < |r| && r[i].kind == newC.kind && TypeIndex(r, newC.kind) == i;
    forall kind | kind != newC.kind ensures FindCondition(r, kind) == FindCondition(conds, kind) {
      var j := TypeIndex(conds, kind);
      assert j < |conds| ==> TypeIndex(r, kind) == j;
      assert j == |conds| ==> TypeIndex(r, kind) == |r|;
    }
  }

  // --- The history behind a transition time ------------------------------------------------

  // One call of replaceCondition and what the clock said.
  datatype Call = Call(cond: Condition, now: Time)

  function Fold(conds: seq<Condition>, calls: seq<Call>): seq<Condition> {
    if calls == [] then conds
    else
      var last := calls[|calls| - 1];
      Replaced(Fold(conds, calls[..|calls| - 1]), last.cond, last.now)
  }

  // No call between h and i is for the type.
  ghost predicate Silent(calls: seq<Call>, kind: string, h: nat, i: nat)
    requires i <= |calls|
  {
    forall j :: h < j < i ==> calls[j].cond.kind != kind
  }

  // Call i starts the trailing run of equal statuses of the type: from it on the status is the
  // same, and the call of the type before it, if any, set another.
  ghost predicate StartsTrailingRun(calls: seq<Call>, kind: string, i: nat) {
    && i < |calls| && calls[i].cond.kind == kind
    && (forall j :: i <= j < |calls| && calls[j].cond.kind == kind ==> calls[j].cond.status == calls[i].cond.status)
    && (forall h: nat :: h < i && calls[h].cond.kind == kind && Silent(calls, kind, h, i) ==>
          calls[h].cond.status != calls[i].cond.status)
  }

  // The last call of a type.
  function LastCall(calls: seq<Call>, kind: string): Option<Call> {
    if calls == [] then None
    else if calls[|calls| - 1].cond.kind == kind then Some(calls[|calls| - 1])
    else LastCall(calls[..|calls| - 1], kind)
  }

  lemma {:induction false} LastCallIndex(calls: seq<Call>, kind: string) returns (i: nat)
    requires LastCall(calls, kind).Some?
    ensures i < |calls| && LastCall(calls, kind) == Some(calls[i]) && calls[i].cond.kind == kind
    ensures forall j :: i < j < |calls| ==> calls[j].cond.kind != kind
  {
    i := |calls| - 1;
    if calls[i].cond.kind != kind {
      var n := i;
      i := LastCallIndex(calls[..n], kind);
    }
  }

  lemma {:induction false} RunGoesOn(calls: seq<Call>, c: Call, kind: string, i: nat)
    requires StartsTrailingRun(calls, kind, i)
    requires c.cond.kind == kind ==> c.cond.status == calls[i].cond.status
    ensures StartsTrailingRun(calls + [c], kind, i)
  {
    var more := calls + [c];
    assert forall j :: 0 <= j < |calls| ==> more[j] == calls[j];
    forall h: nat | h < i && more[h].cond.kind == kind && Silent(more, kind, h, i)
      ensures more[h].cond.status != more[i].cond.status
    {
      assert forall j :: h < j < i ==> more[j] == calls[j];
      assert Silent(calls, kind, h, i);
    }
  }

  lemma {:induction false} RunStarts(calls: seq<Call>, c: Call, kind: string)
    requires c.cond.kind == kind
    requires LastCall(calls, kind).Some? ==> LastCall(calls, kind).value.cond.status != c.cond.status
    ensures StartsTrailingRun(calls + [c], kind, |calls|)
  {
    var more, n := calls + [c], |calls|;
    forall h: nat | h < n && more[h].cond.kind == kind && Silent(more, kind, h, n)
      ensures more[h].cond.status != c.cond.status
    {
      assert forall j :: h < j < n ==> more[j] == calls[j];
      LastCallIs(calls, kind, h);
    }
  }

  lemma {:induction false} LastCallIs(calls: seq<Call>, kind: string, h: nat)
    requires h < |calls| && calls[h].cond.kind == kind && Silent(calls, kind, h, |calls|)
    ensures LastCall(calls, kind) == Some(calls[h])
  {
    var n := |calls| - 1;
    if h < n {
      LastCallIs(calls[..n], kind, h);
    }
  }

  // The transition time of a type tells the truth about history: it is the time of the call
  // that started the trailing run of equal statuses; the status is that of the last call.
  lemma {:induction false} TransitionTimeIsTrue(conds: seq<Condition>, calls: seq<Call>, kind: string) returns (i: nat)
    requires FindCondition(conds, kind) == None && LastCall(calls, kind).Some?
    requires forall j :: 0 <= j < |calls| ==> calls[j].now != 0
    ensures StartsTrailingRun(calls, kind, i)
    ensures FindCondition(Fold(conds, calls), kind).Some?
    ensures var c := FindCondition(Fold(conds, calls), kind).value;
            c.lastTransitionTime == calls[i].now && c.status == LastCall(calls, kind).value.cond.status
  {
    var n := |calls| - 1;
    var rest, last := calls[..n], calls[n];
    var before := Fold(conds, rest);
    assert calls == rest + [last];
    ReplacedFrame(before, last.cond, last.now);
    if LastCall(rest, kind).Some? {
      i := TransitionTimeIsTrue(conds, rest, kind);
      LastCallInRun(rest, kind, i);
      if last.cond.kind != kind || last.cond.status == rest[i].cond.status {
        RunGoesOn(rest, last, kind, i);
      } else {
        RunStarts(rest, last, kind);
        i := n;
      }
    } else {
      NeverCalled(conds, rest, kind);
      RunStarts(rest, last, kind);
      i := n;
    }
  }

  lemma {:induction false} LastCallInRun(calls: seq<Call>, kind: string, i: nat)
    requires StartsTrailingRun(calls, kind, i)
    ensures LastCall(calls, kind).Some? && LastCall(calls, kind).value.cond.status == calls[i].cond.status
  {
    LastCallExists(calls, kind, i);
    var j := LastCallIndex(calls, kind);
  }

  lemma {:induction false} LastCallExists(calls: seq<Call>, kind: string, i: nat)
    requires i < |calls| && calls[i].cond.kind == kind
    ensures LastCall(calls, kind).Some?
  {
    var n := |calls| - 1;
    if calls[n].cond.kind != kind {
      LastCallExists(calls[..n], kind, i);
    }
  }

  lemma {:induction false} NeverCalled(conds: seq<Condition>, calls: seq<Call>, kind: string)
    requires LastCall(calls, kind) == None
    ensures FindCondition(Fold(conds, calls), kind) == FindCondition(conds, kind)
  {
    if calls != [] {
      var n := |calls| - 1;
      NeverCalled(conds, calls[..n], kind);
      ReplacedFrame(Fold(conds, calls[..n]), calls[n].cond, calls[n].now);
    }
  }

  // --- replaceStatus -----------------------------------------------------------------------

  datatype WorkloadId = WorkloadId(kind: string, version: string, namespace: string, name: string)

  datatype WorkloadStatus = WorkloadStatus(id: WorkloadId, conditions: seq<Condition>)

  predicate HasId(statuses: seq<WorkloadStatus>, id: WorkloadId) {
    exists i :: 0 <= i < |statuses| && statuses[i].id == id
  }

  function Upsert(statuses: seq<WorkloadStatus>, updated: WorkloadStatus): (r: seq<WorkloadStatus>)
    ensures |r| == |statuses| + if HasId(statuses, updated.id) then 0 else 1
    ensures forall i :: 0 <= i < |statuses| ==> r[i] == if statuses[i].id == updated.id then updated else statuses[i]
    ensures !HasId(statuses, updated.id) ==> r[|statuses|] == updated
  {
    seq(|statuses|, i requires 0 <= i < |statuses| => if statuses[i].id == updated.id then updated else statuses[i])
    + if HasId(statuses, updated.id) then [] else [updated]
  }

  // Every entry with the workload's identity is overwritten in place.
  method ReplaceStatus(statuses: array<WorkloadStatus>, updatedStatus: WorkloadStatus) returns (r: array<WorkloadStatus>)
    modifies statuses
    ensures r[..] == Upsert(old(statuses[..]), updatedStatus)
    ensures r == statuses || fresh(r)
  {
    ghost var before := statuses[..];
    var updated := false;
    for i := 0 to statuses.Length
      invariant forall j :: 0 <= j < i ==>
                  statuses[j] == if before[j].id == updatedStatus.id then updatedStatus else before[j]
      invariant forall j :: i <= j < statuses.Length ==> statuses[j] == before[j]
      invariant updated <==> exists j :: 0 <= j < i && before[j].id == updatedStatus.id
    {
      if statuses[i].id == updatedStatus.id {
        statuses[i] := updatedStatus;
        updated := true;
      }
    }
    if updated {
      r := statuses;
    } else {
      r := new WorkloadStatus[statuses.Length + 1](i requires 0 <= i <= statuses.Length reads statuses =>
        if i < statuses.Length then statuses[i] else updatedStatus);
    }
  }

  // --- The status loop of updateWorkloadStatus ---------------------------------------------

  const WORKLOAD_UP_TO_DATE := "WorkloadUpToDate"

  // A workload that the listing returned, and the time at which its status is made.
  datatype Listed = Listed(id: WorkloadId, at: Time)

  function WorkloadCondition(generation: int): Condition {
    Condition(WORKLOAD_UP_TO_DATE, "True", generation, "UpToDate", "No update needed for this workload", 0)
  }

  // Each pass builds a new status, so its transition time starts over.
  function NewStatus(wl: Listed, generation: int): WorkloadStatus {
    WorkloadStatus(wl.id, Replaced([], WorkloadCondition(generation), wl.at))
  }

  function UpsertAll(statuses: seq<WorkloadStatus>, wls: seq<Listed>, generation: int): seq<WorkloadStatus> {
    if wls == [] then statuses
    else Upsert(UpsertAll(statuses, wls[..|wls| - 1], generation), NewStatus(wls[|wls| - 1], generation))
  }

  ghost predicate IdsUnique(statuses: seq<WorkloadStatus>) {
    forall i, j :: 0 <= i < j < |statuses| ==> statuses[i].id != statuses[j].id
  }

  ghost predicate IsListed(wls: seq<Listed>, id: WorkloadId) {
    exists i :: 0 <= i < |wls| && wls[i].id == id
  }

  // The status has one condition: WorkloadUpToDate is True for this generation, since that time.
  ghost predicate SaysUpToDate(s: WorkloadStatus, generation: int, at: Time) {
    && |s.conditions| == 1
    && s.conditions[0].kind == "WorkloadUpToDate"
    && s.conditions[0].status == "True"
    && s.conditions[0].observedGeneration == generation
    && s.conditions[0].reason == "UpToDate"
    && s.conditions[0].message == "No update needed for this workload"
    && s.conditions[0].lastTransitionTime == at
  }

  // s says so of a listed workload, with the time of a listing of it.
  ghost predicate IsCurrent(wls: seq<Listed>, generation: int, s: WorkloadStatus) {
    exists i :: 0 <= i < |wls| && s.id == wls[i].id && SaysUpToDate(s, generation, wls[i].at)
  }

  // Old entries keep their place; those of workloads that were not listed keep their content;
  // entries of listed workloads, old or added, carry the current generation.
  ghost predicate IsUpsert(statuses: seq<WorkloadStatus>, wls: seq<Listed>, generation: int, r: seq<WorkloadStatus>) {
    && |statuses| <= |r|
    && (forall i :: 0 <= i < |statuses| ==> r[i].id == statuses[i].id)
    && (forall i :: 0 <= i < |statuses| && !IsListed(wls, statuses[i].id) ==> r[i] == statuses[i])
    && (forall i :: 0 <= i < |r| && IsListed(wls, r[i].id) ==> IsCurrent(wls, generation, r[i]))
    && (forall i :: |statuses| <= i < |r| ==> IsListed(wls, r[i].id))
  }

  // The status loop is an upsert: it keeps identities unique, its identities are the old ones
  // and the listed ones, and its entries are as IsUpsert says.
  lemma {:induction false} StatusLoopIsUpsert(statuses: seq<WorkloadStatus>, wls: seq<Listed>, generation: int)
    ensures var r := UpsertAll(statuses, wls, generation);
            && IsUpsert(statuses, wls, generation, r)
            && (IdsUnique(statuses) ==> IdsUnique(r))
            && (forall id :: HasId(r, id) <==> HasId(statuses, id) || IsListed(wls, id))
  {
    hide NewStatus, SaysUpToDate, IsListed, IsCurrent, HasId, IdsUnique, Upsert, IsUpsert;
    if wls == [] {
      NothingListed(statuses, generation);
    } else {
      var rest, wl := wls[..|wls| - 1], wls[|wls| - 1];
      StatusLoopIsUpsert(statuses, rest, generation);
      var r := UpsertAll(statuses, rest, generation);
      UpsertStep(statuses, rest, wl, generation, r);
      UpsertIds(r, NewStatus(wl, generation));
      NewStatusId(wl, generation);
      ListedMore(rest, wl);
      assert wls == rest + [wl];
    }
  }

  lemma {:induction false} NothingListed(statuses: seq<WorkloadStatus>, generation: int)
    ensures IsUpsert(statuses, [], generation, statuses)
    ensures forall id :: !IsListed([], id)
  {
  }

  lemma {:induction false} NewStatusId(wl: Listed, generation: int)
    ensures NewStatus(wl, generation).id == wl.id && SaysUpToDate(NewStatus(wl, generation), generation, wl.at)
  {
  }

  lemma {:induction false} ListedMore(wls: seq<Listed>, wl: Listed)
    ensures forall id :: IsListed(wls + [wl], id) <==> IsListed(wls, id) || id == wl.id
    ensures forall generation, s :: IsCurrent(wls + [wl], generation, s) <==>
                                    IsCurrent(wls, generation, s) || (s.id == wl.id && SaysUpToDate(s, generation, wl.at))
  {
    var more := wls + [wl];
    assert forall i :: 0 <= i < |wls| ==> more[i] == wls[i];
    assert more[|wls|] == wl;
  }

  lemma {:induction false} UpsertStep(statuses: seq<WorkloadStatus>, wls: seq<Listed>, wl: Listed, generation: int, r: seq<WorkloadStatus>)
    requires IsUpsert(statuses, wls, generation, r)
    ensures IsUpsert(statuses, wls + [wl], generation, Upsert(r, NewStatus(wl, generation)))
  {
    ListedMore(wls, wl);
    NewStatusId(wl, generation);
    hide SaysUpToDate;
  }

  lemma {:induction false} UpsertIds(statuses: seq<WorkloadStatus>, s: WorkloadStatus)
    ensures IdsUnique(statuses) ==> IdsUnique(Upsert(statuses, s))
    ensures forall id :: HasId(Upsert(statuses, s), id) <==> HasId(statuses, id) || id == s.id
  {
    var r := Upsert(statuses, s);
    assert forall i :: 0 <= i < |statuses| ==> r[i].id == statuses[i].id;
    forall id ensures HasId(r, id) <==> HasId(statuses, id) || id == s.id {
      if HasId(statuses, id) {
        var i :| 0 <= i < |statuses| && statuses[i].id == id;
        assert r[i].id == id;
      }
      if id == s.id && !HasId(statuses, id) {
        assert r[|statuses|].id == id;
      }
    }
  }
}
