// One whole reconcile, undisturbed, and where repeated reconciles lead.
module Convergence {
  import opened Prelude
  import opened Status
  import opened Protocol
  import Numerals

  // --- A whole reconcile -------------------------------------------------------------------

  // How many steps a reconcile can still take.
  function StepsLeft(pc: Pc): nat {
    match pc
    case Idle => 5
    case Fetched(_) => 4
    case ListingDeleted(_) | ListingLive(_) => 3
    case RemovingFinalizer(_) | AddingFinalizer(_) | Patching(_, _) => 2
    case Rereading => 1
  }

  datatype Ended = Ended(server: Server, cache: Cache, outcome: Outcome)

  // Run the reconcile to its end; choice i decides its i-th step.
  function Drive(s: Server, cache: Cache, k: Key, pc: Pc, cs: seq<Choice>): Ended
    requires StepsLeft(pc) <= |cs|
    decreases StepsLeft(pc)
  {
    var p := Advance(s, cache, k, pc, cs[0]);
    if p.outcome.Some? then Ended(p.server, p.cache, p.outcome.value)
    else Drive(p.server, p.cache, k, p.pc, cs[1..])
  }

  function RunFrom(w: World, events: seq<Event>): World
    decreases |events|
  {
    if events == [] then w else RunFrom(Step(w, events[0]), events[1..])
  }

  function ReconcileEvents(k: Key, cs: seq<Choice>): seq<Event> {
    if cs == [] then [] else [Reconcile(k, cs[0])] + ReconcileEvents(k, cs[1..])
  }

  // A whole reconcile is a run of the protocol that nothing interrupts.
  lemma {:induction false} DriveIsRun(w: World, k: Key, cs: seq<Choice>) returns (n: nat)
    requires StepsLeft(PcOf(w, k)) <= |cs|
    ensures 1 <= n <= |cs|
    ensures var after := RunFrom(w, ReconcileEvents(k, cs[..n]));
            var e := Drive(w.server, w.cache, k, PcOf(w, k), cs);
            after.server == e.server && after.cache == e.cache && PcOf(after, k) == Idle
    ensures OutcomeOf(RunFrom(w, ReconcileEvents(k, cs[..n - 1])), Reconcile(k, cs[n - 1])) ==
            Some(Drive(w.server, w.cache, k, PcOf(w, k), cs).outcome)
    decreases StepsLeft(PcOf(w, k))
  {
    var p := Advance(w.server, w.cache, k, PcOf(w, k), cs[0]);
    if p.outcome.Some? {
      n := 1;
      assert cs[..1][1..] == [] && cs[..0] == [];
      EndsIdle(w.server, w.cache, k, PcOf(w, k), cs[0]);
    } else {
      var m := DriveIsRun(Step(w, Reconcile(k, cs[0])), k, cs[1..]);
      n := m + 1;
      assert cs[..n][1..] == cs[1..][..m] && cs[..n - 1][1..] == cs[1..][..m - 1];
    }
  }

  lemma {:induction false} EndsIdle(s: Server, cache: Cache, k: Key, pc: Pc, c: Choice)
    ensures var p := Advance(s, cache, k, pc, c); p.outcome.Some? ==> p.pc == Idle
  {
  }

  // --- Undisturbed reconciles of a live object ---------------------------------------------

  // Every call succeeds, the listing returns wls, the clock says now.
  function Calm(wls: seq<Listed>, now: Time): seq<Choice> {
    var c := Choice(true, wls, now);
    [c, c, c, c, c]
  }

  function CalmReconcile(s: Server, cache: Cache, k: Key, wls: seq<Listed>, now: Time): Ended {
    Drive(s, cache, k, Idle, Calm(wls, now))
  }

  // The first reconcile adds the finalizer and asks to be run again at once.
  lemma {:induction false} FirstReconcile(s: Server, cache: Cache, k: Key, wls: seq<Listed>, now: Time)
    requires k in s.store && !s.store[k].deleting && FINALIZER !in s.store[k].finalizers
    ensures var e, o := CalmReconcile(s, cache, k, wls, now), s.store[k];
            && e.outcome == Outcome(Now, false) && k in e.server.store
            && e.server.store[k] == o.(finalizers := o.finalizers + {FINALIZER}, version := s.nextVersion)
  {
    var cs := Calm(wls, now);
    var c := Choice(true, wls, now);
    assert cs[1..] == [c, c, c, c] && cs[1..][1..] == [c, c, c];
    var o := s.store[k];
    var res := o.(finalizers := o.finalizers + {FINALIZER});
    hide UpsertAll, Replaced;
    assert Advance(s, cache, k, Idle, c) == Progress(s, cache, Fetched(o), None);
    assert Advance(s, cache, k, Fetched(o), c) == Progress(s, cache[k := false], AddingFinalizer(res), None);
    assert Drive(s, cache, k, Idle, cs) == Drive(s, cache, k, Fetched(o), cs[1..]);
    assert Drive(s, cache, k, Fetched(o), cs[1..]) == Drive(s, cache[k := false], k, AddingFinalizer(res), cs[1..][1..]);
  }

  // With the finalizer in place, a reconcile writes the status.
  function Reconciled(o: Obj, wls: seq<Listed>, now: Time): Obj {
    WithUpToDate(WithWorkloads(o, wls), wls, now)
  }

  lemma {:induction false} LaterReconcile(s: Server, cache: Cache, k: Key, wls: seq<Listed>, now: Time)
    requires k in s.store && !s.store[k].deleting && FINALIZER in s.store[k].finalizers
    ensures var e, o := CalmReconcile(s, cache, k, wls, now), s.store[k];
            && e.outcome == QUIET && k in e.server.store
            && e.server.store[k] == Reconciled(o, wls, now).(version := e.server.store[k].version)
  {
    var cs := Calm(wls, now);
    var c := Choice(true, wls, now);
    var o := s.store[k];
    var res := Reconciled(o, wls, now);
    var cache' := cache[k := false];
    assert cs[1..] == [c, c, c, c] && cs[1..][1..] == [c, c, c];
    assert [c, c, c][1..] == [c, c] && [c, c][1..] == [c];
    hide UpsertAll, Replaced;
    assert Drive(s, cache, k, Idle, cs) == Drive(s, cache, k, Fetched(o), cs[1..]);
    assert Drive(s, cache, k, Fetched(o), cs[1..]) == Drive(s, cache', k, ListingLive(o), [c, c, c]);
    assert Drive(s, cache', k, ListingLive(o), [c, c, c]) == Drive(s, cache', k, Patching(o, res), [c, c]);
    var patched := PatchStatus(s, k, o, res);
    assert Drive(s, cache', k, Patching(o, res), [c, c]) == Drive(patched, cache', k, Rereading, [c]);
  }

  // --- Settled objects ---------------------------------------------------------------------

  // The same workloads, perhaps listed at other times.
  ghost predicate SameIds(a: seq<Listed>, b: seq<Listed>) {
    |a| == |b| && forall i :: 0 <= i < |a| ==> a[i].id == b[i].id
  }

  // The status entry of a listed workload, up to its transition time.
  ghost predicate IsCurrentFor(s: WorkloadStatus, generation: int) {
    exists at: Time :: SaysUpToDate(s, generation, at)
  }

  // The status says that this generation was reconciled with these workloads.
  ghost predicate Settled(o: Obj, wls: seq<Listed>) {
    && !o.deleting && "cloudsql.cloud.google.com/AuthProxyWorkload-finalizer" in o.finalizers
    && UpToDateSays(o, wls)
    && (forall i :: 0 <= i < |wls| ==> HasId(o.workloads, wls[i].id))
    && (forall i :: 0 <= i < |o.workloads| && IsListed(wls, o.workloads[i].id) ==> IsCurrentFor(o.workloads[i], o.generation))
  }

  ghost predicate UpToDateSays(o: Obj, wls: seq<Listed>) {
    var c := FindCondition(o.conditions, "UpToDate");
    && c.Some? && c.value.lastTransitionTime != 0
    && c.value.status == "True" && c.value.observedGeneration == o.generation
    && c.value.reason == (if wls == [] then "NoWorkloadsFound" else "FinishedReconcile")
    && c.value.message == (if wls == [] then "No workload updates needed"
                           else "Reconciled " + Numerals.Decimal(|wls|) + " matching workloads complete")
  }

  // Nothing differs but the resource version and the transition times of workload statuses.
  ghost predicate SameButTimes(a: Obj, b: Obj) {
    && b == a.(version := b.version, workloads := b.workloads)
    && |a.workloads| == |b.workloads|
    && forall i :: 0 <= i < |a.workloads| ==>
         a.workloads[i] == b.workloads[i] ||
         (a.workloads[i].id == b.workloads[i].id &&
          IsCurrentFor(a.workloads[i], a.generation) && IsCurrentFor(b.workloads[i], a.generation))
  }

  lemma {:induction false} ReconciledIsSettled(o: Obj, wls: seq<Listed>, now: Time)
    requires !o.deleting && FINALIZER in o.finalizers && now != 0
    ensures Settled(Reconciled(o, wls, now), wls)
  {
    var r := Reconciled(o, wls, now);
    StatusLoopIsUpsert(o.workloads, wls, o.generation);
    UpToDateWritten(WithWorkloads(o, wls), wls, now);
    hide UpsertAll, Replaced;
    forall i | 0 <= i < |r.workloads| && IsListed(wls, r.workloads[i].id)
      ensures IsCurrentFor(r.workloads[i], r.generation)
    {
      CurrentForListed(wls, r.generation, r.workloads[i]);
    }
    forall i | 0 <= i < |wls| ensures HasId(r.workloads, wls[i].id) {
      assert IsListed(wls, wls[i].id);
    }
  }

  lemma {:induction false} CurrentForListed(wls: seq<Listed>, generation: int, s: WorkloadStatus)
    requires IsCurrent(wls, generation, s)
    ensures IsCurrentFor(s, generation)
  {
    var j :| 0 <= j < |wls| && s.id == wls[j].id && SaysUpToDate(s, generation, wls[j].at);
  }

  lemma {:induction false} UpToDateWritten(o: Obj, wls: seq<Listed>, now: Time)
    requires now != 0
    ensures UpToDateSays(WithUpToDate(o, wls, now), wls)
  {
    var newC := UpToDateCondition(o, wls, Message(wls));
    ReplacedFrame(o.conditions, newC, now);
    ReplacedTime(o.conditions, newC, now);
  }

  lemma {:induction false} ReplacedTime(conds: seq<Condition>, newC: Condition, now: Time)
    requires now != 0
    ensures FindCondition(Replaced(conds, newC, now), newC.kind).Some?
    ensures FindCondition(Replaced(conds, newC, now), newC.kind).value.lastTransitionTime != 0
  {
    var r := Replaced(conds, newC, now);
    var i := TypeIndex(conds, newC.kind);
    assert i < |r| && r[i].kind == newC.kind && TypeIndex(r, newC.kind) == i;
  }

  // Reconciling a settled object again leaves it settled and changes nothing but times.
  lemma {:induction false} SettledStays(o: Obj, wls: seq<Listed>, again: seq<Listed>, now: Time)
    requires Settled(o, wls) && SameIds(wls, again) && now != 0
    ensures Settled(Reconciled(o, again, now), again)
    ensures SameButTimes(o, Reconciled(o, again, now))
  {
    ReconciledIsSettled(o, again, now);
    ConditionStays(WithWorkloads(o, again), wls, again, now);
    WorkloadsStay(o, wls, again);
  }

  lemma {:induction false} ConditionStays(o: Obj, wls: seq<Listed>, again: seq<Listed>, now: Time)
    requires UpToDateSays(o, wls) && |wls| == |again|
    ensures WithUpToDate(o, again, now).conditions == o.conditions
  {
    var i := TypeIndex(o.conditions, UP_TO_DATE);
    var c := o.conditions[i];
    assert UpToDateCondition(o, again, Message(again)).(lastTransitionTime := c.lastTransitionTime) == c;
    assert o.conditions[i := c] == o.conditions;
  }

  ghost predicate AllPresent(statuses: seq<WorkloadStatus>, wls: seq<Listed>) {
    forall i :: 0 <= i < |wls| ==> HasId(statuses, wls[i].id)
  }

  lemma {:induction false} PresentStaysPut(statuses: seq<WorkloadStatus>, rest: seq<Listed>, wl: Listed, generation: int)
    requires |UpsertAll(statuses, rest, generation)| == |statuses| && HasId(statuses, wl.id)
    ensures |Upsert(UpsertAll(statuses, rest, generation), NewStatus(wl, generation))| == |statuses|
  {
    StatusLoopIsUpsert(statuses, rest, generation);
    NewStatusId(wl, generation);
    hide UpsertAll, HasId, NewStatus, IsUpsert, IdsUnique, IsListed, Upsert;
    assert HasId(UpsertAll(statuses, rest, generation), wl.id);
  }

  lemma {:induction false} NothingAdded(statuses: seq<WorkloadStatus>, wls: seq<Listed>, generation: int)
    requires AllPresent(statuses, wls)
    ensures |UpsertAll(statuses, wls, generation)| == |statuses|
  {
    hide HasId, NewStatus, Upsert;
    if wls != [] {
      var n := |wls| - 1;
      assert AllPresent(statuses, wls[..n]);
      NothingAdded(statuses, wls[..n], generation);
      PresentStaysPut(statuses, wls[..n], wls[n], generation);
    }
  }

  lemma {:induction false} WorkloadsStay(o: Obj, wls: seq<Listed>, again: seq<Listed>)
    requires Settled(o, wls) && SameIds(wls, again)
    ensures var r := WithWorkloads(o, again).workloads;
            && |r| == |o.workloads|
            && forall i :: 0 <= i < |r| ==>
                 o.workloads[i] == r[i] ||
                 (o.workloads[i].id == r[i].id && IsCurrentFor(o.workloads[i], o.generation) && IsCurrentFor(r[i], o.generation))
  {
    var r := WithWorkloads(o, again).workloads;
    StatusLoopIsUpsert(o.workloads, again, o.generation);
    forall i | 0 <= i < |again| ensures HasId(o.workloads, again[i].id) {
      assert again[i].id == wls[i].id;
    }
    NothingAdded(o.workloads, again, o.generation);
    hide UpsertAll, UpToDateSays;
    forall i | 0 <= i < |r| && IsListed(again, r[i].id)
      ensures IsCurrentFor(o.workloads[i], o.generation) && IsCurrentFor(r[i], o.generation)
    {
      CurrentForListed(again, o.generation, r[i]);
      var j :| 0 <= j < |again| && again[j].id == r[i].id;
      assert wls[j].id == r[i].id;
    }
  }

  // --- Convergence -------------------------------------------------------------------------

  // Undisturbed, two reconciles settle any live object: finalizer in place, UpToDate true for
  // its generation, the reason set by whether any workload matched.  With the finalizer there
  // already, the first of them does.
  lemma {:induction false} TwoReconcilesSettle(s: Server, cache: Cache, k: Key, wls1: seq<Listed>, now1: Time, wls2: seq<Listed>, now2: Time)
    requires k in s.store && !s.store[k].deleting && now1 != 0 && now2 != 0
    ensures var one := CalmReconcile(s, cache, k, wls1, now1);
            var two := CalmReconcile(one.server, one.cache, k, wls2, now2);
            && k in one.server.store && k in two.server.store
            && Settled(two.server.store[k], wls2) && two.outcome == QUIET
            && (FINALIZER in s.store[k].finalizers ==> Settled(one.server.store[k], wls1) && one.outcome == QUIET)
  {
    hide Settled, CalmReconcile;
    var one := CalmReconcile(s, cache, k, wls1, now1);
    if FINALIZER in s.store[k].finalizers {
      LaterSettles(s, cache, k, wls1, now1);
    } else {
      FirstReconcile(s, cache, k, wls1, now1);
    }
    LaterSettles(one.server, one.cache, k, wls2, now2);
  }

  lemma {:induction false} LaterSettles(s: Server, cache: Cache, k: Key, wls: seq<Listed>, now: Time)
    requires k in s.store && !s.store[k].deleting && FINALIZER in s.store[k].finalizers && now != 0
    ensures var e := CalmReconcile(s, cache, k, wls, now);
            && e.outcome == QUIET && k in e.server.store && Settled(e.server.store[k], wls)
            && !e.server.store[k].deleting && FINALIZER in e.server.store[k].finalizers
  {
    hide CalmReconcile;
    LaterReconcile(s, cache, k, wls, now);
    ReconciledIsSettled(s.store[k], wls, now);
  }

  // From then on, reconciles that list the same workloads change nothing but times.
  lemma {:induction false} SettledIsStable(s: Server, cache: Cache, k: Key, wls: seq<Listed>, again: seq<Listed>, now: Time)
    requires k in s.store && Settled(s.store[k], wls) && SameIds(wls, again) && now != 0
    ensures var e := CalmReconcile(s, cache, k, again, now);
            && k in e.server.store && e.outcome == QUIET
            && Settled(e.server.store[k], again) && SameButTimes(s.store[k], e.server.store[k])
  {
    LaterReconcile(s, cache, k, again, now);
    SettledStays(s.store[k], wls, again, now);
  }

  // A reconcile that found its object and ends quietly has done its work, whatever calls could
  // have failed: a deleted object no longer has this controller's finalizer, a live one is
  // settled.
  lemma {:induction false} QuietMeansDone(s: Server, cache: Cache, k: Key, cs: seq<Choice>)
    requires |cs| == 5 && cs[0].ok && k in s.store && cs[2].now != 0
    ensures var e := Drive(s, cache, k, Idle, cs);
            e.outcome == QUIET ==>
              if s.store[k].deleting then k !in e.server.store || FINALIZER !in e.server.store[k].finalizers
              else k in e.server.store && Settled(e.server.store[k], cs[2].wls)
  {
    var o := s.store[k];
    hide UpsertAll, Replaced, Settled;
    assert Drive(s, cache, k, Idle, cs) == Drive(s, cache, k, Fetched(o), cs[1..]);
    assert cs[1..][1..] == cs[2..];
    if o.deleting {
      assert Drive(s, cache, k, Fetched(o), cs[1..]) == Drive(s, cache[k := true], k, ListingDeleted(o), cs[2..]);
      DeletedQuietMeansReleased(s, cache[k := true], k, cs[2..]);
    } else {
      LiveQuietMeansSettled(s, cache[k := false], k, cs[2..]);
    }
  }

  lemma {:induction false} DeletedQuietMeansReleased(s: Server, cache: Cache, k: Key, cs: seq<Choice>)
    requires |cs| == 3 && k in s.store && s.store[k].deleting
    ensures var e := Drive(s, cache, k, ListingDeleted(s.store[k]), cs);
            e.outcome == QUIET ==> k !in e.server.store || FINALIZER !in e.server.store[k].finalizers
  {
    hide UpsertAll;
    var o := s.store[k];
    if FINALIZER in o.finalizers && cs[0].ok {
      var res := WithWorkloads(o, cs[0].wls).(finalizers := o.finalizers - {FINALIZER});
      assert Drive(s, cache, k, ListingDeleted(o), cs) == Drive(s, cache, k, RemovingFinalizer(res), cs[1..]);
    }
  }

  lemma {:induction false} LiveQuietMeansSettled(s: Server, cache: Cache, k: Key, cs: seq<Choice>)
    requires |cs| == 3 && k in s.store && !s.store[k].deleting && cs[0].now != 0
    ensures var o := s.store[k];
            var e := Drive(s, cache, k, if FINALIZER in o.finalizers then ListingLive(o)
                                        else AddingFinalizer(o.(finalizers := o.finalizers + {FINALIZER})), cs);
            e.outcome == QUIET ==> k in e.server.store && Settled(e.server.store[k], cs[0].wls)
  {
    hide UpsertAll, Replaced, Settled;
    var o := s.store[k];
    var c := cs[0];
    if FINALIZER in o.finalizers && c.ok {
      var res := Reconciled(o, c.wls, c.now);
      assert Drive(s, cache, k, ListingLive(o), cs) == Drive(s, cache, k, Patching(o, res), cs[1..]);
      PatchSettles(s, cache, k, c, cs[1..]);
    }
  }

  lemma {:induction false} PatchSettles(s: Server, cache: Cache, k: Key, c: Choice, cs: seq<Choice>)
    requires |cs| == 2 && k in s.store && c.now != 0
    requires !s.store[k].deleting && FINALIZER in s.store[k].finalizers
    ensures var e := Drive(s, cache, k, Patching(s.store[k], Reconciled(s.store[k], c.wls, c.now)), cs);
            e.outcome == QUIET ==> k in e.server.store && Settled(e.server.store[k], c.wls)
  {
    hide Reconciled, Settled;
    var o := s.store[k];
    var res := Reconciled(o, c.wls, c.now);
    if cs[0].ok {
      assert Drive(s, cache, k, Patching(o, res), cs) == Drive(PatchStatus(s, k, o, res), cache, k, Rereading, cs[1..]);
      PatchStores(s, k, c);
    }
  }

  lemma {:induction false} PatchStores(s: Server, k: Key, c: Choice)
    requires k in s.store && c.now != 0
    requires !s.store[k].deleting && FINALIZER in s.store[k].finalizers
    ensures var after := PatchStatus(s, k, s.store[k], Reconciled(s.store[k], c.wls, c.now));
            k in after.store && Settled(after.store[k], c.wls)
  {
    var o := s.store[k];
    ReconciledIsSettled(o, c.wls, c.now);
    hide UpsertAll, Replaced;
    var res := Reconciled(o, c.wls, c.now);
    var after := PatchStatus(s, k, o, res);
    assert after.store[k] == res.(version := after.store[k].version);
  }

  // --- How a reconcile ends ----------------------------------------------------------------

  // What the controller runtime is told, from what was stored and which calls succeed: quiet,
  // again at once, or again after a delay; with an error exactly if a call failed that counts.
  lemma {:induction false} ReconcileOutcome(s: Server, cache: Cache, k: Key, cs: seq<Choice>)
    requires |cs| == 5
    ensures var e, own := Drive(s, cache, k, Idle, cs), "cloudsql.cloud.google.com/AuthProxyWorkload-finalizer";
            if !cs[0].ok || k !in s.store then
              && e.outcome == (if k in cache && cache[k] then Outcome(No, false) else Outcome(Delayed, true))
              && e.server == s && e.cache == cache
            else if s.store[k].deleting then
              && e.outcome == (if !cs[2].ok then Outcome(Now, true)
                               else Outcome(No, own in s.store[k].finalizers && !cs[3].ok))
              && e.cache == cache[k := true] && (e.outcome.failed ==> e.server == s)
            else if own !in s.store[k].finalizers then
              && e.outcome == Outcome(Now, !cs[2].ok)
              && e.cache == cache[k := false] && (e.outcome.failed ==> e.server == s)
            else
              && e.outcome == (if !cs[2].ok then Outcome(Delayed, true) else Outcome(No, !cs[3].ok || !cs[4].ok))
              && e.cache == cache[k := false] && (!cs[2].ok || !cs[3].ok ==> e.server == s)
  {
    hide UpsertAll, Replaced;
    if cs[0].ok && k in s.store {
      var o := s.store[k];
      assert Drive(s, cache, k, Idle, cs) == Drive(s, cache, k, Fetched(o), cs[1..]);
      assert cs[1..][1..] == cs[2..];
      if o.deleting {
        DeletedOutcome(s, cache[k := true], k, cs[2..]);
      } else {
        LiveOutcome(s, cache[k := false], k, cs[2..]);
      }
    }
  }

  lemma {:induction false} DeletedOutcome(s: Server, cache: Cache, k: Key, cs: seq<Choice>)
    requires |cs| == 3 && k in s.store
    ensures var o := s.store[k];
            var e := Drive(s, cache, k, ListingDeleted(o), cs);
            && e.outcome == (if !cs[0].ok then Outcome(Now, true) else Outcome(No, FINALIZER in o.finalizers && !cs[1].ok))
            && e.cache == cache && (e.outcome.failed ==> e.server == s)
  {
    hide UpsertAll;
    var o := s.store[k];
    if FINALIZER in o.finalizers && cs[0].ok {
      var res := WithWorkloads(o, cs[0].wls).(finalizers := o.finalizers - {FINALIZER});
      assert Drive(s, cache, k, ListingDeleted(o), cs) == Drive(s, cache, k, RemovingFinalizer(res), cs[1..]);
    }
  }

  lemma {:induction false} LiveOutcome(s: Server, cache: Cache, k: Key, cs: seq<Choice>)
    requires |cs| == 3 && k in s.store && !s.store[k].deleting
    ensures var o := s.store[k];
            var e := Drive(s, cache, k, if FINALIZER in o.finalizers then ListingLive(o)
                                        else AddingFinalizer(o.(finalizers := o.finalizers + {FINALIZER})), cs);
            && e.cache == cache
            && (if FINALIZER !in o.finalizers then
                  e.outcome == Outcome(Now, !cs[0].ok) && (e.outcome.failed ==> e.server == s)
                else
                  e.outcome == (if !cs[0].ok then Outcome(Delayed, true) else Outcome(No, !cs[1].ok || !cs[2].ok)) &&
                  (!cs[0].ok || !cs[1].ok ==> e.server == s))
  {
    hide UpsertAll, Replaced;
    var o := s.store[k];
    if FINALIZER in o.finalizers && cs[0].ok {
      var res := Reconciled(o, cs[0].wls, cs[0].now);
      assert Drive(s, cache, k, ListingLive(o), cs) == Drive(s, cache, k, Patching(o, res), cs[1..]);
      if cs[1].ok {
        assert cs[1..][1..] == cs[2..];
        assert Drive(s, cache, k, Patching(o, res), cs[1..]) == Drive(PatchStatus(s, k, o, res), cache, k, Rereading, cs[2..]);
      }
    }
  }
}
