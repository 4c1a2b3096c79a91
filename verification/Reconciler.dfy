// The AuthProxyWorkload reconciler as it is written: an object with a cache and a client, whose
// methods change the resource in memory and then write it.  Reconcile is proved against the
// undisturbed run of the protocol; the choices, one a step, stand for what the API server, the
// listing of workloads and the clock answer.
module Reconciler {
  import opened Prelude
  import opened Status
  import opened Protocol
  import opened Convergence
  import Numerals

  class RecentlyDeletedCache {
    var values: map<Key, bool>

    constructor ()
      ensures values == map[]
    {
      values := map[];
    }

    method Set(k: Key, deleted: bool)
      modifies this
      ensures values == old(values)[k := deleted]
    {
      values := values[k := deleted];
    }

    method Get(k: Key) returns (deleted: bool)
      ensures deleted == Recently(values, k)
    {
      if k !in values {
        return false;
      }
      return values[k];
    }
  }

  // The client: an API server behind calls that may fail.
  class Client {
    var server: Server

    constructor (server: Server)
      ensures this.server == server
    {
      this.server := server;
    }

    method Get(k: Key, ok: bool) returns (o: Option<Obj>)
      ensures o == if ok && k in server.store then Some(server.store[k]) else None
    {
      o := if ok && k in server.store then Some(server.store[k]) else None;
    }

    method Put(k: Key, res: Obj, ok: bool) returns (done: bool)
      modifies this
      ensures done <==> ok && CanUpdate(old(server), k, res)
      ensures server == if done then Update(old(server), k, res) else old(server)
    {
      done := ok && CanUpdate(server, k, res);
      if done {
        server := Update(server, k, res);
      }
    }

    method Patch(k: Key, orig: Obj, res: Obj, ok: bool) returns (done: bool)
      modifies this
      ensures done <==> ok && k in old(server).store
      ensures server == if done then PatchStatus(old(server), k, orig, res) else old(server)
    {
      done := ok && k in server.store;
      if done {
        server := PatchStatus(server, k, orig, res);
      }
    }
  }

  // An AuthProxyWorkload in memory; its two status lists are slices.
  class Resource {
    const uid: nat
    const version: nat
    const generation: nat
    const deleting: bool
    const spec: int
    var finalizers: set<string>
    var conditions: array<Condition>
    var workloads: array<WorkloadStatus>

    constructor (o: Obj)
      ensures View() == o && fresh(conditions) && fresh(workloads)
    {
      uid, version, generation, deleting, spec := o.uid, o.version, o.generation, o.deleting, o.spec;
      finalizers := o.finalizers;
      conditions := new Condition[|o.conditions|](i requires 0 <= i < |o.conditions| => o.conditions[i]);
      workloads := new WorkloadStatus[|o.workloads|](i requires 0 <= i < |o.workloads| => o.workloads[i]);
    }

    ghost function View(): Obj
      reads this, conditions, workloads
    {
      Obj(uid, version, generation, finalizers, deleting, spec, conditions[..], workloads[..])
    }

    method DeepCopy() returns (o: Obj)
      ensures o == View()
    {
      o := Obj(uid, version, generation, finalizers, deleting, spec, conditions[..], workloads[..]);
    }

    // The part of updateWorkloadStatus that follows the listing.
    method UpdateWorkloadStatus(matching: seq<Listed>)
      modifies this`workloads, workloads
      ensures View() == WithWorkloads(old(View()), matching)
      ensures workloads == old(workloads) || fresh(workloads)
    {
      for i := 0 to |matching|
        invariant workloads == old(workloads) || fresh(workloads)
        invariant workloads[..] == UpsertAll(old(workloads[..]), matching[..i], generation)
        invariant conditions[..] == old(conditions[..])
      {
        assert matching[..i + 1][..i] == matching[..i];
        var conds := new Condition[0];
        conds := ReplaceCondition(conds, WorkloadCondition(generation), matching[i].at);
        workloads := ReplaceStatus(workloads, WorkloadStatus(matching[i].id, conds[..]));
      }
      assert matching[..|matching|] == matching;
    }

    // The part of reconcileResult that precedes the patch.
    method SetUpToDate(matching: seq<Listed>, now: Time)
      modifies this`conditions, conditions
      ensures View() == WithUpToDate(old(View()), matching, now)
    {
      var reason, message := NO_WORKLOADS_FOUND, "No workload updates needed";
      if matching != [] {
        reason := FINISHED_RECONCILE;
        message := "Reconciled " + Numerals.Decimal(|matching|) + " matching workloads complete";
      }
      conditions := ReplaceCondition(conditions, Condition(UP_TO_DATE, "True", generation, reason, message, 0), now);
    }
  }

  class AuthProxyWorkloadReconciler {
    const client: Client
    const recentlyDeleted: RecentlyDeletedCache

    constructor (client: Client)
      ensures this.client == client && fresh(recentlyDeleted) && recentlyDeleted.values == map[]
    {
      this.client := client;
      recentlyDeleted := new RecentlyDeletedCache();
    }

    method Reconcile(k: Key, cs: seq<Choice>) returns (outcome: Outcome)
      requires |cs| == 5
      modifies client, recentlyDeleted
      ensures Ended(client.server, recentlyDeleted.values, outcome) ==
              Drive(old(client.server), old(recentlyDeleted.values), k, Idle, cs)
    {
      hide UpsertAll, Replaced, Update, PatchStatus;
      var found := client.Get(k, cs[0].ok);
      if found.None? {
        var deleted := recentlyDeleted.Get(k);
        return if deleted then QUIET else Outcome(Delayed, true);
      }
      ghost var rest := cs[1..];
      var resource := new Resource(found.value);
      recentlyDeleted.Set(k, resource.deleting);
      if resource.deleting {
        outcome := DoDelete(k, resource, cs[2..]);
      } else {
        outcome := DoCreateUpdate(k, resource, cs[2..]);
      }
      assert cs[1..][1..] == cs[2..];
    }

    method DoDelete(k: Key, resource: Resource, cs: seq<Choice>) returns (outcome: Outcome)
      requires |cs| == 3
      modifies client, resource, resource.workloads
      ensures Ended(client.server, recentlyDeleted.values, outcome) ==
              Drive(old(client.server), recentlyDeleted.values, k, ListingDeleted(old(resource.View())), cs)
    {
      hide UpsertAll, Replaced, Update, PatchStatus;
      if !cs[0].ok {
        return Outcome(Now, true);
      }
      resource.UpdateWorkloadStatus(cs[0].wls);
      if FINALIZER in resource.finalizers {
        resource.finalizers := resource.finalizers - {FINALIZER};
        var res := resource.DeepCopy();
        var done := client.Put(k, res, cs[1].ok);
        if !done {
          return Outcome(No, true);
        }
      }
      return QUIET;
    }

    method DoCreateUpdate(k: Key, resource: Resource, cs: seq<Choice>) returns (outcome: Outcome)
      requires |cs| == 3
      modifies client, resource, resource.workloads, resource.conditions
      ensures var res := old(resource.View());
              Ended(client.server, recentlyDeleted.values, outcome) ==
              Drive(old(client.server), recentlyDeleted.values, k,
                    if FINALIZER in res.finalizers then ListingLive(res)
                    else AddingFinalizer(res.(finalizers := res.finalizers + {FINALIZER})), cs)
    {
      hide UpsertAll, Replaced, Update, PatchStatus;
      var orig := resource.DeepCopy();
      if FINALIZER !in resource.finalizers {
        outcome := ApplyFinalizer(k, resource, cs);
        return;
      }
      if !cs[0].ok {
        return Outcome(Delayed, true);
      }
      resource.UpdateWorkloadStatus(cs[0].wls);
      resource.SetUpToDate(cs[0].wls, cs[0].now);
      outcome := PatchStatusOf(k, resource, orig, cs[1..]);
    }

    method ApplyFinalizer(k: Key, resource: Resource, cs: seq<Choice>) returns (outcome: Outcome)
      requires |cs| >= 2
      modifies client, resource
      ensures var res := old(resource.View());
              Ended(client.server, recentlyDeleted.values, outcome) ==
              Drive(old(client.server), recentlyDeleted.values, k,
                    AddingFinalizer(res.(finalizers := res.finalizers + {FINALIZER})), cs)
    {
      hide Update, PatchStatus;
      resource.finalizers := resource.finalizers + {FINALIZER};
      var res := resource.DeepCopy();
      var done := client.Put(k, res, cs[0].ok);
      return if done then Outcome(Now, false) else Outcome(Now, true);
    }

    // patchAuthProxyWorkloadStatus: patch, then read the object again.
    method PatchStatusOf(k: Key, resource: Resource, orig: Obj, cs: seq<Choice>) returns (outcome: Outcome)
      requires |cs| == 2
      modifies client
      ensures Ended(client.server, recentlyDeleted.values, outcome) ==
              Drive(old(client.server), recentlyDeleted.values, k, Patching(orig, resource.View()), cs)
    {
      hide Update, PatchStatus;
      var res := resource.DeepCopy();
      var done := client.Patch(k, orig, res, cs[0].ok);
      if !done {
        return Outcome(No, true);
      }
      var reread := client.Get(k, cs[1].ok);
      return if reread.None? then Outcome(No, true) else QUIET;
    }
  }
}
