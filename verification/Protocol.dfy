// The AuthProxyWorkload reconciler as a state machine: one API call or one local update per
// step, so that users and reconciles of other keys can act between any two of them.
module Protocol {
  import opened Prelude
  import opened Status
  import Numerals

  type Key = NamespacedName

  const FINALIZER := "cloudsql.cloud.google.com/AuthProxyWorkload-finalizer"
  const UP_TO_DATE := "UpToDate"
  const NO_WORKLOADS_FOUND := "NoWorkloadsFound"
  const FINISHED_RECONCILE := "FinishedReconcile"

  // A stored AuthProxyWorkload.  version is its resource version; spec stands for the whole
  // specification.
  datatype Obj = Obj(
    uid: nat,
    version: nat,
    generation: nat,
    finalizers: set<string>,
    deleting: bool,
    spec: int,
    conditions: seq<Condition>,
    workloads: seq<WorkloadStatus>)

  // --- The API server ----------------------------------------------------------------------

  datatype Server = Server(store: map<Key, Obj>, nextVersion: nat, nextUid: nat)

  // Write an object under a new resource version; an object that is being deleted goes away
  // with its last finalizer.
  function Write(s: Server, k: Key, o: Obj): Server {
    if o.deleting && o.finalizers == {} then s.(store := s.store - {k})
    else s.(store := s.store[k := o.(version := s.nextVersion)], nextVersion := s.nextVersion + 1)
  }

  // PUT of an object: metadata and specification only, and only if the version is current.
  function CanUpdate(s: Server, k: Key, res: Obj): bool {
    k in s.store && s.store[k].version == res.version
  }

  function Update(s: Server, k: Key, res: Obj): Server
    requires k in s.store
  {
    var cur := s.store[k];
    Write(s, k, cur.(finalizers := res.finalizers, spec := res.spec,
                     generation := if cur.spec == res.spec then cur.generation else cur.generation + 1))
  }

  // PATCH of the status with the difference between orig and res; there is no version check,
  // and a list that differs replaces the stored list.
  function PatchStatus(s: Server, k: Key, orig: Obj, res: Obj): Server
    requires k in s.store
  {
    var cur := s.store[k];
    var patched := cur.(conditions := if res.conditions == orig.conditions then cur.conditions else res.conditions,
                        workloads := if res.workloads == orig.workloads then cur.workloads else res.workloads);
    if patched == cur then s
    else s.(store := s.store[k := patched.(version := s.nextVersion)], nextVersion := s.nextVersion + 1)
  }

  // --- The reconciler ----------------------------------------------------------------------

  datatype Requeue = No | Now | Delayed

  datatype Outcome = Outcome(requeue: Requeue, failed: bool)

  const QUIET := Outcome(No, false)

  // Where a reconcile of one key is.
  datatype Pc =
    | Idle
    | Fetched(res: Obj)
    | ListingDeleted(res: Obj)
    | RemovingFinalizer(res: Obj)
    | AddingFinalizer(res: Obj)
    | ListingLive(res: Obj)
    | Patching(orig: Obj, res: Obj)
    | Rereading

  // What the outside decides in a step: whether an API call succeeds, what a listing of
  // workloads returns, and what the clock says.
  datatype Choice = Choice(ok: bool, wls: seq<Listed>, now: Time)

  type Cache = map<Key, bool>

  function Recently(c: Cache, k: Key): bool {
    k in c && c[k]
  }

  // What a step does: to the server, to the cache, to the program counter; and the outcome if
  // it ends the reconcile.
  datatype Progress = Progress(server: Server, cache: Cache, pc: Pc, outcome: Option<Outcome>)

  function WithWorkloads(res: Obj, wls: seq<Listed>): Obj {
    res.(workloads := UpsertAll(res.workloads, wls, res.generation))
  }

  function UpToDateCondition(res: Obj, wls: seq<Listed>, message: string): Condition {
    Condition(UP_TO_DATE, "True", res.generation,
              if wls == [] then NO_WORKLOADS_FOUND else FINISHED_RECONCILE, message, 0)
  }

  function Message(wls: seq<Listed>): string {
    if wls == [] then "No workload updates needed"
    else "Reconciled " + Numerals.Decimal(|wls|) + " matching workloads complete"
  }

  function WithUpToDate(res: Obj, wls: seq<Listed>, now: Time): Obj {
    res.(conditions := Replaced(res.conditions, UpToDateCondition(res, wls, Message(wls)), now))
  }

  function Advance(s: Server, cache: Cache, k: Key, pc: Pc, c: Choice): Progress {
    match pc
    case Idle =>
      if c.ok && k in s.store then Progress(s, cache, Fetched(s.store[k]), None)
      else Progress(s, cache, Idle, Some(if Recently(cache, k) then QUIET else Outcome(Delayed, true)))
    case Fetched(res) =>
      if res.deleting then Progress(s, cache[k := true], ListingDeleted(res), None)
      else Progress(s, cache[k := false],
                    if FINALIZER in res.finalizers then ListingLive(res)
                    else AddingFinalizer(res.(finalizers := res.finalizers + {FINALIZER})), None)
    case ListingDeleted(res) =>
      if !c.ok then Progress(s, cache, Idle, Some(Outcome(Now, true)))
      else if FINALIZER in res.finalizers then
        Progress(s, cache, RemovingFinalizer(WithWorkloads(res, c.wls).(finalizers := res.finalizers - {FINALIZER})), None)
      else Progress(s, cache, Idle, Some(QUIET))
    case RemovingFinalizer(res) =>
      if c.ok && CanUpdate(s, k, res) then Progress(Update(s, k, res), cache, Idle, Some(QUIET))
      else Progress(s, cache, Idle, Some(Outcome(No, true)))
    case AddingFinalizer(res) =>
      if c.ok && CanUpdate(s, k, res) then Progress(Update(s, k, res), cache, Idle, Some(Outcome(Now, false)))
      else Progress(s, cache, Idle, Some(Outcome(Now, true)))
    case ListingLive(res) =>
      if !c.ok then Progress(s, cache, Idle, Some(Outcome(Delayed, true)))
      else Progress(s, cache, Patching(res, WithUpToDate(WithWorkloads(res, c.wls), c.wls, c.now)), None)
    case Patching(orig, res) =>
      if c.ok && k in s.store then Progress(PatchStatus(s, k, orig, res), cache, Rereading, None)
      else Progress(s, cache, Idle, Some(Outcome(No, true)))
    case Rereading =>
      Progress(s, cache, Idle, Some(if c.ok && k in s.store then QUIET else Outcome(No, true)))
  }

  // --- Runs --------------------------------------------------------------------------------

  datatype World = World(server: Server, cache: Cache, pcs: map<Key, Pc>)

  function PcOf(w: World, k: Key): Pc {
    if k in w.pcs then w.pcs[k] else Idle
  }

  // What users and other controllers do, the steps of reconciles, and restarts of the
  // operator.  SetFinalizers is any change of finalizers that leaves this controller's own
  // alone; a restart forgets the marks and abandons all reconciles.
  datatype Event =
    | Create(key: Key, spec: int, finalizers: set<string>)
    | Edit(key: Key, spec: int)
    | SetFinalizers(key: Key, finalizers: set<string>)
    | Delete(key: Key, bump: bool)
    | Reconcile(key: Key, choice: Choice)
    | Restart

  function DeleteObject(s: Server, k: Key, bump: bool): Server {
    if k !in s.store then s
    else if s.store[k].finalizers == {} then s.(store := s.store - {k})
    else if s.store[k].deleting then s
    else
      var o := s.store[k];
      Write(s, k, o.(deleting := true, generation := if bump then o.generation + 1 else o.generation))
  }

  function UserAct(s: Server, e: Event): Server
    requires !e.Reconcile? && !e.Restart?
  {
    match e
    case Create(k, spec, finalizers) =>
      if k in s.store then s
      else Write(s, k, Obj(s.nextUid, 0, 1, finalizers, false, spec, [], [])).(nextUid := s.nextUid + 1)
    case Edit(k, spec) =>
      if k !in s.store || s.store[k].spec == spec then s
      else Write(s, k, s.store[k].(spec := spec, generation := s.store[k].generation + 1))
    case SetFinalizers(k, finalizers) =>
      if k !in s.store then s
      else Write(s, k, s.store[k].(finalizers := (finalizers - {FINALIZER}) + (s.store[k].finalizers * {FINALIZER})))
    case Delete(k, bump) =>
      DeleteObject(s, k, bump)
  }

  function Step(w: World, e: Event): World {
    if e.Reconcile? then
      var p := Advance(w.server, w.cache, e.key, PcOf(w, e.key), e.choice);
      World(p.server, p.cache, w.pcs[e.key := p.pc])
    else if e.Restart? then
      World(w.server, map[], map[])
    else
      w.(server := UserAct(w.server, e))
  }

  function OutcomeOf(w: World, e: Event): Option<Outcome> {
    if e.Reconcile? then Advance(w.server, w.cache, e.key, PcOf(w, e.key), e.choice).outcome else None
  }

  const EMPTY_WORLD := World(Server(map[], 0, 0), map[], map[])

  // The world after a run of events.
  function After(events: seq<Event>): World {
    if events == [] then EMPTY_WORLD else Step(After(events[..|events| - 1]), events[|events| - 1])
  }
}
