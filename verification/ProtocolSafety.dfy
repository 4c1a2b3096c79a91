// What holds of every run of the reconciler protocol.
module ProtocolSafety {
  import opened Prelude
  import opened Status
  import opened Protocol

  // --- The invariant -----------------------------------------------------------------------

  ghost predicate CondsNotAhead(conds: seq<Condition>, generation: int) {
    forall i :: 0 <= i < |conds| ==> conds[i].observedGeneration <= generation
  }

  // No condition of the resource or of its workloads claims a later generation.
  ghost predicate NotAhead(o: Obj, generation: int) {
    && CondsNotAhead(o.conditions, generation)
    && forall i :: 0 <= i < |o.workloads| ==> CondsNotAhead(o.workloads[i].conditions, generation)
  }

  // o is a copy, perhaps old, of the object now stored, which has this controller's finalizer.
  ghost predicate Pinned(s: Server, k: Key, o: Obj) {
    && k in s.store && FINALIZER in s.store[k].finalizers
    && s.store[k].uid == o.uid && o.generation <= s.store[k].generation
  }

  ghost predicate StoreInv(s: Server) {
    forall k :: k in s.store ==> NotAhead(s.store[k], s.store[k].generation)
  }

  ghost predicate PcInv(s: Server, cache: Cache, k: Key, pc: Pc) {
    match pc
    case Idle => true
    case Fetched(res) => NotAhead(res, res.generation) && (FINALIZER in res.finalizers ==> Pinned(s, k, res))
    case ListingDeleted(res) => Recently(cache, k) && (FINALIZER in res.finalizers ==> Pinned(s, k, res))
    case RemovingFinalizer(res) => Recently(cache, k) && Pinned(s, k, res)
    case AddingFinalizer(res) => FINALIZER in res.finalizers
    case ListingLive(res) => NotAhead(res, res.generation) && Pinned(s, k, res)
    case Patching(orig, res) => NotAhead(res, res.generation) && Pinned(s, k, res) && orig.uid == res.uid
    case Rereading => true
  }

  ghost predicate Inv(w: World) {
    StoreInv(w.server) && forall k :: k in w.pcs ==> PcInv(w.server, w.cache, k, w.pcs[k])
  }

  lemma {:induction false} WorkloadsNotAhead(res: Obj, wls: seq<Listed>)
    requires NotAhead(res, res.generation)
    ensures NotAhead(WithWorkloads(res, wls), res.generation)
  {
    var r := UpsertAll(res.workloads, wls, res.generation);
    StatusLoopIsUpsert(res.workloads, wls, res.generation);
    hide UpsertAll, IsListed, IsCurrent, HasId, IdsUnique;
    forall i | 0 <= i < |r| ensures CondsNotAhead(r[i].conditions, res.generation) {
      if IsListed(wls, r[i].id) {
        CurrentNotAhead(wls, res.generation, r[i]);
      }
    }
  }

  lemma {:induction false} CurrentNotAhead(wls: seq<Listed>, generation: int, s: WorkloadStatus)
    requires IsCurrent(wls, generation, s)
    ensures CondsNotAhead(s.conditions, generation)
  {
    var j :| 0 <= j < |wls| && s.id == wls[j].id && SaysUpToDate(s, generation, wls[j].at);
  }

  lemma {:induction false} UpToDateNotAhead(res: Obj, wls: seq<Listed>, now: Time)
    requires NotAhead(res, res.generation)
    ensures NotAhead(WithUpToDate(res, wls, now), res.generation)
  {
  }

  // A user action leaves what is pinned pinned, and stored conditions behind.
  lemma {:induction false} UserActKeeps(s: Server, e: Event)
    requires !e.Reconcile? && !e.Restart? && StoreInv(s)
    ensures StoreInv(UserAct(s, e))
    ensures forall k, o :: Pinned(s, k, o) ==> Pinned(UserAct(s, e), k, o)
  {
    hide NotAhead;
    NotAheadGrows(s, e.key);
    assert NotAhead(Obj(s.nextUid, 0, 1, {}, false, 0, [], []), 1) by {
      EmptyNotAhead(Obj(s.nextUid, 0, 1, {}, false, 0, [], []));
    }
    match e
    case Create(k, spec, finalizers) => EmptyNotAhead(Obj(s.nextUid, s.nextVersion, 1, finalizers, false, spec, [], []));
    case Edit(k, spec) =>
    case SetFinalizers(k, finalizers) =>
    case Delete(k, bump) =>
  }

  lemma {:induction false} EmptyNotAhead(o: Obj)
    requires o.conditions == [] && o.workloads == []
    ensures NotAhead(o, o.generation)
  {
  }

  // Only conditions, workloads and the generation matter, and a larger generation is safe.
  lemma {:induction false} NotAheadGrows(s: Server, k: Key)
    requires StoreInv(s)
    ensures k in s.store ==>
              forall o: Obj ::
                (o.conditions == s.store[k].conditions && o.workloads == s.store[k].workloads
                 && o.generation >= s.store[k].generation) ==> NotAhead(o, o.generation)
  {
    if k in s.store {
      var cur := s.store[k];
      forall o: Obj | o.conditions == cur.conditions && o.workloads == cur.workloads && o.generation >= cur.generation
        ensures NotAhead(o, o.generation)
      {
        assert NotAhead(cur, cur.generation);
      }
    }
  }

  lemma {:induction false} AdvanceKeepsStore(s: Server, cache: Cache, k: Key, pc: Pc, c: Choice)
    requires StoreInv(s) && PcInv(s, cache, k, pc)
    ensures StoreInv(Advance(s, cache, k, pc, c).server)
  {
    NotAheadGrows(s, k);
    if pc.Patching? && c.ok && k in s.store {
      PatchNotAhead(s, k, pc.orig, pc.res);
    }
    hide NotAhead, UpsertAll, Replaced;
  }

  lemma {:induction false} PatchNotAhead(s: Server, k: Key, orig: Obj, res: Obj)
    requires StoreInv(s) && k in s.store && NotAhead(res, res.generation) && res.generation <= s.store[k].generation
    ensures StoreInv(PatchStatus(s, k, orig, res))
  {
    var cur := s.store[k];
    assert NotAhead(cur, cur.generation);
    assert NotAhead(res, cur.generation);
  }

  lemma {:induction false} AdvanceKeepsPc(s: Server, cache: Cache, k: Key, pc: Pc, c: Choice)
    requires StoreInv(s) && PcInv(s, cache, k, pc)
    ensures var p := Advance(s, cache, k, pc, c); PcInv(p.server, p.cache, k, p.pc)
  {
    if pc.ListingLive? {
      WorkloadsNotAhead(pc.res, c.wls);
      UpToDateNotAhead(WithWorkloads(pc.res, c.wls), c.wls, c.now);
    }
    hide NotAhead, UpsertAll, Replaced;
  }

  // A reconcile of one key leaves the objects and the marks of all other keys alone.
  lemma {:induction false} AdvanceIsLocal(s: Server, cache: Cache, k: Key, pc: Pc, c: Choice, other: Key)
    requires other != k
    ensures var p := Advance(s, cache, k, pc, c);
            && (other in p.server.store <==> other in s.store)
            && (other in s.store ==> p.server.store[other] == s.store[other])
            && Recently(p.cache, other) == Recently(cache, other)
  {
    hide UpsertAll, Replaced;
  }

  lemma {:induction false} StepKeepsInv(w: World, e: Event)
    requires Inv(w)
    ensures Inv(Step(w, e))
  {
    hide StoreInv;
    var after := Step(w, e);
    if e.Reconcile? {
      assert PcInv(w.server, w.cache, e.key, PcOf(w, e.key));
      AdvanceKeepsStore(w.server, w.cache, e.key, PcOf(w, e.key), e.choice);
      AdvanceKeepsPc(w.server, w.cache, e.key, PcOf(w, e.key), e.choice);
      forall k | k in after.pcs && k != e.key ensures PcInv(after.server, after.cache, k, after.pcs[k]) {
        AdvanceIsLocal(w.server, w.cache, e.key, PcOf(w, e.key), e.choice, k);
        hide NotAhead, Advance;
        PcInvFrame(w.server, w.cache, after.server, after.cache, k, w.pcs[k]);
      }
    } else if !e.Restart? {
      UserActKeeps(w.server, e);
      hide NotAhead, UserAct;
      forall k | k in after.pcs ensures PcInv(after.server, after.cache, k, after.pcs[k]) {
        PcInvFrame(w.server, w.cache, after.server, after.cache, k, w.pcs[k]);
      }
    }
  }

  lemma {:induction false} PcInvFrame(s: Server, cache: Cache, s2: Server, cache2: Cache, k: Key, pc: Pc)
    requires PcInv(s, cache, k, pc) && Recently(cache2, k) == Recently(cache, k)
    requires forall o :: Pinned(s, k, o) ==> Pinned(s2, k, o)
    ensures PcInv(s2, cache2, k, pc)
  {
    hide NotAhead, Pinned, Recently;
  }

  lemma {:induction false} InvHolds(events: seq<Event>)
    ensures Inv(After(events))
  {
    if events != [] {
      InvHolds(events[..|events| - 1]);
      StepKeepsInv(After(events[..|events| - 1]), events[|events| - 1]);
    }
  }

  // In no run does a stored condition get ahead of the generation of its object, although
  // the status patch carries no version.
  lemma {:induction false} GenerationNeverAhead(events: seq<Event>, k: Key)
    requires k in After(events).server.store
    ensures var o := After(events).server.store[k];
            && (forall i :: 0 <= i < |o.conditions| ==> o.conditions[i].observedGeneration <= o.generation)
            && (forall i, j :: 0 <= i < |o.workloads| && 0 <= j < |o.workloads[i].conditions| ==>
                  o.workloads[i].conditions[j].observedGeneration <= o.generation)
  {
    InvHolds(events);
    assert NotAhead(After(events).server.store[k], After(events).server.store[k].generation);
  }

  // The patch always reaches the object that the reconcile read: while it is on its way the
  // object cannot have been deleted and created again.
  lemma {:induction false} PatchReachesItsObject(events: seq<Event>, k: Key)
    requires PcOf(After(events), k).Patching?
    ensures k in After(events).server.store
    ensures After(events).server.store[k].uid == PcOf(After(events), k).orig.uid
    ensures After(events).server.store[k].generation >= PcOf(After(events), k).res.generation
  {
    InvHolds(events);
    assert PcInv(After(events).server, After(events).cache, k, PcOf(After(events), k));
  }

  // --- Deletion ----------------------------------------------------------------------------

  function Before(events: seq<Event>, i: nat): World
    requires i <= |events|
  {
    After(events[..i])
  }

  lemma {:induction false} BeforeNext(events: seq<Event>, i: nat)
    requires i < |events|
    ensures Before(events, i + 1) == Step(Before(events, i), events[i])
  {
    assert events[..i + 1][..i] == events[..i];
  }

  // The stored object of the key holds this controller's finalizer.
  ghost predicate Holds(w: World, k: Key) {
    k in w.server.store && FINALIZER in w.server.store[k].finalizers
  }

  // The i-th event takes a finalizer-holding object out of the store, or its finalizer away.
  ghost predicate LetsGo(events: seq<Event>, i: nat, k: Key) {
    i < |events| && Holds(Before(events, i), k) && !Holds(Before(events, i + 1), k)
  }

  lemma {:induction false} OnlyRemovalLetsGo(w: World, e: Event, k: Key)
    requires Inv(w) && Holds(w, k) && !Holds(Step(w, e), k)
    ensures e.Reconcile? && e.key == k && PcOf(w, k).RemovingFinalizer?
    ensures Recently(Step(w, e).cache, k)
  {
    assert Pinned(w.server, k, w.server.store[k]);
    if e.Reconcile? {
      if e.key != k {
        AdvanceIsLocal(w.server, w.cache, e.key, PcOf(w, e.key), e.choice, k);
      } else {
        hide NotAhead, UpsertAll, Replaced;
        assert PcInv(w.server, w.cache, k, PcOf(w, k));
      }
    } else if !e.Restart? {
      UserActKeeps(w.server, e);
    }
  }

  // Event j is a successful listing of workloads for a deleted object of the key, and no
  // restart and no step of a reconcile of the key comes between it and event i.
  ghost predicate ListedJustBefore(events: seq<Event>, j: nat, i: nat, k: Key) {
    && j < i <= |events|
    && events[j].Reconcile? && events[j].key == k && events[j].choice.ok
    && PcOf(Before(events, j), k).ListingDeleted?
    && forall m :: j < m < i ==> events[m] != Restart && !(events[m].Reconcile? && events[m].key == k)
  }

  lemma {:induction false} StepIntoRemoval(w: World, e: Event, k: Key)
    requires PcOf(Step(w, e), k).RemovingFinalizer?
    ensures if e.Reconcile? && e.key == k then PcOf(w, k).ListingDeleted? && e.choice.ok
            else PcOf(w, k).RemovingFinalizer? && e != Restart
  {
    hide UpsertAll, Replaced, UserAct, Update, PatchStatus;
  }

  lemma {:induction false} StartIsIdle(events: seq<Event>, k: Key)
    ensures PcOf(Before(events, 0), k).Idle?
    ensures !Recently(Before(events, 0).cache, k)
  {
    assert events[..0] == [];
  }

  lemma {:induction false} RemovalFollowsListing(events: seq<Event>, i: nat, k: Key) returns (j: nat)
    requires i <= |events| && PcOf(Before(events, i), k).RemovingFinalizer?
    ensures ListedJustBefore(events, j, i, k)
  {
    hide Step, After, Before, PcOf;
    StartIsIdle(events, k);
    BeforeNext(events, i - 1);
    StepIntoRemoval(Before(events, i - 1), events[i - 1], k);
    if events[i - 1].Reconcile? && events[i - 1].key == k {
      j := i - 1;
    } else {
      j := RemovalFollowsListing(events, i - 1, k);
    }
  }

  // Deletion is safe in every run: an object that holds this controller's finalizer loses it,
  // and leaves the store, only through a reconcile of its own key whose listing of workloads
  // succeeded; at that moment the key is marked as recently deleted.
  lemma {:induction false} FinalizerHoldsUntilListed(events: seq<Event>, i: nat, k: Key) returns (j: nat)
    requires LetsGo(events, i, k)
    ensures events[i].Reconcile? && events[i].key == k
    ensures ListedJustBefore(events, j, i, k)
    ensures Recently(Before(events, i + 1).cache, k)
  {
    BeforeNext(events, i);
    InvHolds(events[..i]);
    OnlyRemovalLetsGo(Before(events, i), events[i], k);
    j := RemovalFollowsListing(events, i, k);
  }

  // --- The recently-deleted marks ----------------------------------------------------------

  // Event m is the step in which a reconcile of k marks it, as deleted or as live.
  ghost predicate Marks(events: seq<Event>, m: nat, k: Key, deleted: bool) {
    && m < |events| && events[m].Reconcile? && events[m].key == k
    && PcOf(Before(events, m), k).Fetched? && PcOf(Before(events, m), k).res.deleting == deleted
  }

  // Event m unmarks the key: it marks it as live, or the operator restarts.
  ghost predicate Unmarks(events: seq<Event>, m: nat, k: Key) {
    Marks(events, m, k, false) || (m < |events| && events[m].Restart?)
  }

  // Since the last restart the key was marked, and the last time for a deleted object.
  ghost predicate LastMarkDeleted(events: seq<Event>, i: nat, k: Key) {
    exists m: nat :: m < i && Marks(events, m, k, true) && forall n: nat :: m < n < i ==> !Unmarks(events, n, k)
  }

  lemma {:induction false} StepMarks(events: seq<Event>, i: nat, k: Key)
    requires i < |events|
    ensures Recently(Before(events, i + 1).cache, k) ==
            if Marks(events, i, k, true) then true
            else if Unmarks(events, i, k) then false
            else Recently(Before(events, i).cache, k)
  {
    BeforeNext(events, i);
    var w, e := Before(events, i), events[i];
    hide UpsertAll, Replaced, UserAct;
    if e.Reconcile? && e.key != k {
      AdvanceIsLocal(w.server, w.cache, e.key, PcOf(w, e.key), e.choice, k);
    }
  }

  lemma {:induction false} MarkedIffLastMarkDeleted(events: seq<Event>, i: nat, k: Key)
    requires i <= |events|
    ensures Recently(Before(events, i).cache, k) <==> LastMarkDeleted(events, i, k)
  {
    if i == 0 {
      StartIsIdle(events, k);
    } else {
      MarkedIffLastMarkDeleted(events, i - 1, k);
      StepMarks(events, i - 1, k);
      LastMarkStep(events, i - 1, k);
    }
  }

  lemma {:induction false} LastMarkStep(events: seq<Event>, i: nat, k: Key)
    requires i < |events|
    ensures LastMarkDeleted(events, i + 1, k) <==>
            Marks(events, i, k, true) || (!Unmarks(events, i, k) && LastMarkDeleted(events, i, k))
  {
    MarksOneWay(events, i, k);
    hide Marks, Unmarks;
    if LastMarkDeleted(events, i, k) && !Unmarks(events, i, k) {
      var m: nat :| m < i && Marks(events, m, k, true) && forall n: nat :: m < n < i ==> !Unmarks(events, n, k);
      assert forall n: nat :: m < n < i + 1 ==> !Unmarks(events, n, k);
    }
  }

  lemma {:induction false} MarksOneWay(events: seq<Event>, i: nat, k: Key)
    ensures !(Marks(events, i, k, true) && Unmarks(events, i, k))
  {
  }

  // A reconcile that cannot load its object ends quietly exactly when, since the last restart,
  // the last mark of the key was for a deleted object; otherwise it fails and is retried after a delay.
  lemma {:induction false} MissingIsQuietIff(events: seq<Event>, i: nat, k: Key)
    requires i < |events| && events[i].Reconcile? && events[i].key == k
    requires PcOf(Before(events, i), k).Idle?
    requires !(events[i].choice.ok && k in Before(events, i).server.store)
    ensures OutcomeOf(Before(events, i), events[i]) ==
            Some(if LastMarkDeleted(events, i, k) then QUIET else Outcome(Delayed, true))
  {
    MarkedIffLastMarkDeleted(events, i, k);
  }

  lemma {:induction false} MarkStays(events: seq<Event>, i: nat, t: nat, k: Key)
    requires i <= t <= |events| && Recently(Before(events, i).cache, k)
    requires forall m: nat :: i <= m < t ==> !Unmarks(events, m, k)
    ensures Recently(Before(events, t).cache, k)
    decreases t
  {
    if i < t {
      MarkStays(events, i, t - 1, k);
      StepMarks(events, t - 1, k);
    }
  }

  // After an object was let go, every reconcile that finds it missing ends without error and
  // without requeue, until a re-created object of the key is reconciled or the operator restarts.
  lemma {:induction false} QuietAfterDeletion(events: seq<Event>, i: nat, t: nat, k: Key)
    requires LetsGo(events, i, k) && i < t < |events|
    requires forall m: nat :: i < m < t ==> !Unmarks(events, m, k)
    requires events[t].Reconcile? && events[t].key == k && PcOf(Before(events, t), k).Idle?
    requires k !in Before(events, t).server.store
    ensures OutcomeOf(Before(events, t), events[t]) == Some(QUIET)
  {
    var j := FinalizerHoldsUntilListed(events, i, k);
    MarkStays(events, i + 1, t, k);
  }

  // An object deleted before its first reconcile leaves no mark: the reconcile that then
  // misses it fails and is retried.
  lemma {:induction false} DeletedBeforeReconciled(k: Key, spec: int, bump: bool, c: Choice)
    ensures var events := [Create(k, spec, {}), Delete(k, bump), Reconcile(k, c)];
            OutcomeOf(Before(events, 2), events[2]) == Some(Outcome(Delayed, true))
  {
    var events := [Create(k, spec, {}), Delete(k, bump), Reconcile(k, c)];
    assert events[..0] == [];
    BeforeNext(events, 0);
    BeforeNext(events, 1);
  }

  // The mark outlives the object it was made for.  After a complete deletion the key is
  // created again; if the load of the new, live object then fails, the reconcile ends quietly
  // and is not retried.
  lemma {:induction false} LiveObjectMissed(k: Key, spec: int, again: int, finalizers: set<string>, bump: bool, c: Choice, lost: Choice)
    requires c.ok && !lost.ok
    ensures var r := Reconcile(k, c);
            var events := [Create(k, spec, {FINALIZER}), Delete(k, bump), r, r, r, r,
                           Create(k, again, finalizers), Reconcile(k, lost)];
            var w := Before(events, 7);
            && k in w.server.store && !w.server.store[k].deleting && w.server.store[k].spec == again
            && OutcomeOf(w, events[7]) == Some(QUIET)
  {
    var r := Reconcile(k, c);
    var events := [Create(k, spec, {FINALIZER}), Delete(k, bump), r, r, r, r,
                   Create(k, again, finalizers), Reconcile(k, lost)];
    assert events[..0] == [];
    BeforeNext(events, 0);
    BeforeNext(events, 1);
    var w2 := Before(events, 2);
    var o := w2.server.store[k];
    assert w2.pcs == map[] && o.deleting && o.finalizers == {FINALIZER} && w2.server.store.Keys == {k};
    BeforeNext(events, 2);
    BeforeNext(events, 3);
    BeforeNext(events, 4);
    BeforeNext(events, 5);
    DeletionCompletes(w2, k, c);
    BeforeNext(events, 6);
  }

  // Four undisturbed steps of a reconcile of a deleted object that has no other finalizer: the
  // object is gone and the key is marked.
  lemma {:induction false} DeletionCompletes(w: World, k: Key, c: Choice)
    requires c.ok && PcOf(w, k) == Idle && k in w.server.store
    requires w.server.store[k].deleting && w.server.store[k].finalizers == {FINALIZER}
    ensures var r := Reconcile(k, c);
            var after := Step(Step(Step(Step(w, r), r), r), r);
            k !in after.server.store && PcOf(after, k) == Idle && Recently(after.cache, k)
  {
    hide UpsertAll;
    var r, o := Reconcile(k, c), w.server.store[k];
    var w1 := Step(w, r);
    assert PcOf(w1, k) == Fetched(o);
    var w2 := Step(w1, r);
    assert PcOf(w2, k) == ListingDeleted(o);
    var w3 := Step(w2, r);
    assert PcOf(w3, k) == RemovingFinalizer(WithWorkloads(o, c.wls).(finalizers := {}));
  }

  // --- What a reconcile leaves alone -------------------------------------------------------

  ghost predicate SameOwnership(a: Obj, b: Obj) {
    a.finalizers - {FINALIZER} == b.finalizers - {FINALIZER} && a.spec == b.spec
  }

  // A copy that is as new as the stored object has the stored finalizers, up to this
  // controller's, and the stored specification.
  ghost predicate CopyTrue(s: Server, k: Key, res: Obj) {
    res.version < s.nextVersion && (CanUpdate(s, k, res) ==> SameOwnership(s.store[k], res))
  }

  ghost predicate PcTrue(s: Server, k: Key, pc: Pc) {
    pc.Fetched? || pc.ListingDeleted? || pc.RemovingFinalizer? || pc.AddingFinalizer? ==> CopyTrue(s, k, pc.res)
  }

  ghost predicate VersionsBelow(s: Server) {
    forall k :: k in s.store ==> s.store[k].version < s.nextVersion
  }

  ghost predicate VersionInv(w: World) {
    VersionsBelow(w.server) && forall k :: k in w.pcs ==> PcTrue(w.server, k, w.pcs[k])
  }

  // From s to s2 every object of the key keeps its version or gets a new one.
  ghost predicate OnlyNewVersions(s: Server, s2: Server, k: Key) {
    && s.nextVersion <= s2.nextVersion
    && (k in s2.store && s2.store[k].version < s.nextVersion ==> k in s.store && s.store[k] == s2.store[k])
  }

  lemma {:induction false} WriteGivesNew(s: Server, k: Key, o: Obj)
    requires VersionsBelow(s)
    ensures VersionsBelow(Write(s, k, o))
    ensures forall other :: OnlyNewVersions(s, Write(s, k, o), other)
  {
  }

  lemma {:induction false} UserActGivesNew(s: Server, e: Event)
    requires !e.Reconcile? && !e.Restart? && VersionsBelow(s)
    ensures VersionsBelow(UserAct(s, e)) && forall other :: OnlyNewVersions(s, UserAct(s, e), other)
  {
    forall o ensures VersionsBelow(Write(s, e.key, o)) && forall other :: OnlyNewVersions(s, Write(s, e.key, o), other) {
      WriteGivesNew(s, e.key, o);
    }
    hide Write;
  }

  lemma {:induction false} AdvanceGivesNew(s: Server, cache: Cache, k: Key, pc: Pc, c: Choice)
    requires VersionsBelow(s)
    ensures var s2 := Advance(s, cache, k, pc, c).server;
            VersionsBelow(s2) && forall other :: OnlyNewVersions(s, s2, other)
  {
    hide UpsertAll, Replaced;
    forall o ensures VersionsBelow(Write(s, k, o)) && forall other :: OnlyNewVersions(s, Write(s, k, o), other) {
      WriteGivesNew(s, k, o);
    }
    hide Write;
  }

  lemma {:induction false} CopyStaysTrue(s: Server, s2: Server, k: Key, res: Obj)
    requires CopyTrue(s, k, res) && OnlyNewVersions(s, s2, k)
    ensures CopyTrue(s2, k, res)
  {
  }

  lemma {:induction false} AdvanceKeepsTrue(s: Server, cache: Cache, k: Key, pc: Pc, c: Choice)
    requires VersionsBelow(s) && PcTrue(s, k, pc)
    ensures var p := Advance(s, cache, k, pc, c); PcTrue(p.server, k, p.pc)
  {
    hide UpsertAll, Replaced;
  }

  lemma {:induction false} StepKeepsVersions(w: World, e: Event)
    requires VersionInv(w)
    ensures VersionInv(Step(w, e))
  {
    var after := Step(w, e);
    if e.Reconcile? {
      AdvanceGivesNew(w.server, w.cache, e.key, PcOf(w, e.key), e.choice);
      AdvanceKeepsTrue(w.server, w.cache, e.key, PcOf(w, e.key), e.choice);
      hide Advance, OnlyNewVersions, CopyTrue;
      forall k | k in after.pcs && k != e.key ensures PcTrue(after.server, k, after.pcs[k]) {
        if PcTrue(w.server, k, w.pcs[k]) && !PcTrue(after.server, k, after.pcs[k]) {
          CopyStaysTrue(w.server, after.server, k, w.pcs[k].res);
        }
      }
    } else if !e.Restart? {
      UserActGivesNew(w.server, e);
      hide UserAct, OnlyNewVersions, CopyTrue;
      forall k | k in after.pcs ensures PcTrue(after.server, k, after.pcs[k]) {
        if PcTrue(w.server, k, w.pcs[k]) && !PcTrue(after.server, k, after.pcs[k]) {
          CopyStaysTrue(w.server, after.server, k, w.pcs[k].res);
        }
      }
    }
  }

  lemma {:induction false} VersionInvHolds(events: seq<Event>)
    ensures VersionInv(After(events))
  {
    if events != [] {
      VersionInvHolds(events[..|events| - 1]);
      StepKeepsVersions(After(events[..|events| - 1]), events[|events| - 1]);
    }
  }

  lemma {:induction false} AdvanceTouchesOnlyItsOwn(s: Server, cache: Cache, k: Key, pc: Pc, c: Choice)
    requires PcInv(s, cache, k, pc) && PcTrue(s, k, pc)
    ensures var after := Advance(s, cache, k, pc, c).server.store;
            && (k !in s.store ==> k !in after)
            && (k in s.store && k in after ==>
                  && after[k].finalizers - {FINALIZER} == s.store[k].finalizers - {FINALIZER}
                  && after[k].spec == s.store[k].spec && after[k].generation == s.store[k].generation
                  && after[k].uid == s.store[k].uid && after[k].deleting == s.store[k].deleting)
            && (k in s.store && k !in after ==> s.store[k].deleting && s.store[k].finalizers == {FINALIZER})
  {
    hide UpsertAll, Replaced, NotAhead;
    if k in s.store {
      assert s.store[k].finalizers - {FINALIZER} == {} && FINALIZER in s.store[k].finalizers ==>
             s.store[k].finalizers == {FINALIZER} by {
        assert forall f :: f in s.store[k].finalizers ==> f == FINALIZER || f in s.store[k].finalizers - {FINALIZER};
      }
    }
  }

  // In every run a step of a reconcile leaves of every stored object the specification, the
  // generation, the identity, the mark of deletion and all finalizers but this controller's as
  // they were; and an object that leaves the store in such a step was being deleted and had
  // this controller's finalizer as its only one.
  lemma {:induction false} ReconcileTouchesOnlyItsOwn(events: seq<Event>, i: nat, k: Key)
    requires i < |events| && events[i].Reconcile?
    ensures var own := "cloudsql.cloud.google.com/AuthProxyWorkload-finalizer";
            var before, after := Before(events, i).server.store, Before(events, i + 1).server.store;
            && (k !in before ==> k !in after)
            && (k in before && k in after ==>
                  && after[k].finalizers - {own} == before[k].finalizers - {own}
                  && after[k].spec == before[k].spec && after[k].generation == before[k].generation
                  && after[k].uid == before[k].uid && after[k].deleting == before[k].deleting)
            && (k in before && k !in after ==> before[k].deleting && before[k].finalizers == {own})
  {
    var w, e := Before(events, i), events[i];
    BeforeNext(events, i);
    InvHolds(events[..i]);
    VersionInvHolds(events[..i]);
    hide NotAhead, Advance;
    if e.key == k {
      AdvanceTouchesOnlyItsOwn(w.server, w.cache, k, PcOf(w, k), e.choice);
    } else {
      AdvanceIsLocal(w.server, w.cache, e.key, PcOf(w, e.key), e.choice, k);
    }
  }
}
