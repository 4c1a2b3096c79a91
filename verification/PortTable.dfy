// The port table of one pod: what updateState's port methods compute, as functions on values.
module PortTable {
  import opened Prelude
  import Names

  const FIRST_DB_PORT: int32 := 5000
  const HEALTH_CHECK_PORT: int32 := 9801

  // A Cloud SQL instance as one AuthProxyWorkload uses it.
  datatype InstanceKey = InstanceKey(workload: NamespacedName, connectionString: string)

  // The key that the ports of the application's own containers are filed under.
  const NO_INSTANCE := InstanceKey(NamespacedName("", ""), "")

  datatype PortEntry = PortEntry(key: InstanceKey, port: int32, originals: map<string, int32>)

  datatype PortState = PortState(entries: seq<PortEntry>, cursor: int32)

  // A request for a port: the explicit port of the InstanceSpec, if it has one.
  datatype Request = Request(key: InstanceKey, wanted: Option<int32>)

  datatype Grant = Grant(state: PortState, port: int32, conflict: bool)

  // --- int32 counters ----------------------------------------------------------------------

  // The value of an int32 variable after k increments from p, with Go's wrap-around.
  function Hop(p: int32, k: nat): int32 {
    (p + k - MIN_INT32) % INT32_VALUES + MIN_INT32
  }

  lemma {:induction false} HopNext(p: int32, k: nat)
    ensures Hop(p, 0) == p && Hop(Hop(p, k), 1) == Hop(p, k + 1)
  {
  }

  lemma {:induction false} HopHop(p: int32, m: nat, k: nat)
    ensures Hop(Hop(p, m), k) == Hop(p, m + k)
  {
  }

  lemma {:induction false} HopInjective(p: int32, j: nat, k: nat)
    requires j < k < j + INT32_VALUES
    ensures Hop(p, j) != Hop(p, k)
  {
  }

  // --- The search for a free port ----------------------------------------------------------

  // The loop "while the port is in use, increment it", cut off after |used| increments.
  function Steps(used: set<int32>, p: int32, k: nat): (n: nat)
    requires k <= |used|
    ensures k <= n <= |used|
    ensures forall j: nat :: k <= j < n ==> Hop(p, j) in used
    ensures n < |used| ==> Hop(p, n) !in used
    decreases |used| - k
  {
    if k == |used| || Hop(p, k) !in used then k else Steps(used, p, k + 1)
  }

  function FirstFree(used: set<int32>, p: int32): int32 {
    Hop(p, Steps(used, p, 0))
  }

  ghost predicate AllUsed(used: set<int32>, p: int32, n: nat) {
    forall j: nat :: j < n ==> Hop(p, j) in used
  }

  // Pigeonhole: a stretch of n used ports needs n elements.
  lemma {:induction false} StretchFits(used: set<int32>, p: int32, n: nat)
    requires AllUsed(used, p, n) && n <= INT32_VALUES
    ensures n <= |used|
  {
    if n > 0 {
      var last := Hop(p, n - 1);
      forall j: nat | j < n - 1 ensures Hop(p, j) in used - {last} {
        HopInjective(p, j, n - 1);
      }
      StretchFits(used - {last}, p, n - 1);
    }
  }

  // Unless every int32 value is taken, the search ends at a free port, and at the first one.
  lemma {:induction false} FirstFreeIsFree(used: set<int32>, p: int32)
    requires |used| < INT32_VALUES
    ensures FirstFree(used, p) !in used
    ensures AllUsed(used, p, Steps(used, p, 0))
  {
    var n := Steps(used, p, 0);
    if n == |used| && Hop(p, n) in used {
      assert AllUsed(used, p, n + 1);
      StretchFits(used, p, n + 1);
    }
  }

  lemma {:induction false} FirstFreeUnique(used: set<int32>, p: int32, n: nat)
    requires |used| < INT32_VALUES
    requires AllUsed(used, p, n) && Hop(p, n) !in used
    ensures Steps(used, p, 0) == n
  {
    FirstFreeIsFree(used, p);
  }

  // The ordinary reading of "the first free port from p on".
  ghost predicate IsLeastFree(used: set<int32>, p: int32, r: int32) {
    p <= r && r !in used && forall q: int32 :: p <= q < r ==> q in used
  }

  lemma {:induction false} HopIsAdd(p: int32, k: nat)
    requires p + k <= MAX_INT32
    ensures Hop(p, k) == p + k
  {
  }

  // Below the int32 limit the search returns the least free port, at most |used| above p.
  lemma {:induction false} FirstFreeIsLeast(used: set<int32>, p: int32)
    requires p + |used| <= MAX_INT32
    ensures IsLeastFree(used, p, FirstFree(used, p))
    ensures FirstFree(used, p) <= p + |used|
  {
    FirstFreeIsFree(used, p);
    var n := Steps(used, p, 0);
    HopIsAdd(p, n);
    forall q: int32 | p <= q < p + n ensures q in used {
      HopIsAdd(p, q - p);
      assert Hop(p, q - p) in used;
    }
  }

  // --- The table ---------------------------------------------------------------------------

  function PortsOf(entries: seq<PortEntry>): set<int32> {
    set e | e in entries :: e.port
  }

  lemma {:induction false} PortsOfAppend(entries: seq<PortEntry>, e: PortEntry)
    ensures PortsOf(entries + [e]) == PortsOf(entries) + {e.port}
  {
    forall p | p in PortsOf(entries) + {e.port} ensures p in PortsOf(entries + [e]) {
      if p == e.port {
        assert e in entries + [e];
      } else {
        var d :| d in entries && d.port == p;
        assert d in entries + [e];
      }
    }
  }

  ghost predicate PortsDistinct(entries: seq<PortEntry>) {
    forall i, j :: 0 <= i < j < |entries| ==> entries[i].port != entries[j].port
  }

  lemma {:induction false} PortsOfSize(entries: seq<PortEntry>)
    ensures |PortsOf(entries)| <= |entries|
    ensures PortsDistinct(entries) ==> |PortsOf(entries)| == |entries|
  {
    if entries != [] {
      var rest, e := entries[..|entries| - 1], entries[|entries| - 1];
      PortsOfSize(rest);
      PortsOfAppend(rest, e);
      assert entries == rest + [e];
    }
  }

  // The first entry of a key, or |entries|.
  function KeyIndex(entries: seq<PortEntry>, key: InstanceKey): (r: nat)
    ensures r <= |entries|
    ensures forall j :: 0 <= j < r ==> entries[j].key != key
    ensures r < |entries| ==> entries[r].key == key
  {
    FirstWhere(entries, (e: PortEntry) => e.key == key, 0)
  }

  // The last entry of a port below position n, or |entries|.
  function PortIndexBelow(entries: seq<PortEntry>, p: int32, n: nat): (r: nat)
    requires n <= |entries|
    ensures r < n || r == |entries|
    ensures r < |entries| ==> entries[r].port == p
    ensures forall j :: (if r < |entries| then r + 1 else 0) <= j < n ==> entries[j].port != p
  {
    if n == 0 then |entries|
    else if entries[n - 1].port == p then n - 1
    else PortIndexBelow(entries, p, n - 1)
  }

  function PortIndex(entries: seq<PortEntry>, p: int32): nat {
    PortIndexBelow(entries, p, |entries|)
  }

  // addPort: file port p, and remember which application container declared it.
  function AddPort(entries: seq<PortEntry>, p: int32, containerName: string, key: InstanceKey): seq<PortEntry> {
    var i := PortIndex(entries, p);
    var filed := if i == |entries| then entries + [PortEntry(key, p, map[])] else entries;
    if containerName != "" && !(Names.CONTAINER_PREFIX <= containerName) then
      filed[i := filed[i].(originals := filed[i].originals[containerName := p])]
    else
      filed
  }

  // useInstancePort.
  function Use(s: PortState, r: Request): Grant {
    var i := KeyIndex(s.entries, r.key);
    if i < |s.entries| then
      if Rewrites(s, r) then
        Grant(s.(entries := s.entries[i := s.entries[i].(port := r.wanted.value)]), r.wanted.value,
              r.wanted.value in PortsOf(s.entries))
      else
        Grant(s, s.entries[i].port, false)
    else
      var cursor := if r.wanted.Some? then s.cursor else FirstFree(PortsOf(s.entries), s.cursor);
      var port := if r.wanted.Some? then r.wanted.value else cursor;
      Grant(PortState(AddPort(s.entries, port, "", r.key), cursor), port, port in PortsOf(s.entries))
  }

  // The branch that changes the port of an instance that already has one.
  predicate Rewrites(s: PortState, r: Request) {
    var i := KeyIndex(s.entries, r.key);
    i < |s.entries| && r.wanted.Some? && s.entries[i].port != r.wanted.value
  }

  // Ports declared by application containers, in the order they are registered.
  datatype Claim = Claim(container: string, port: int32)

  function Register(claims: seq<Claim>): seq<PortEntry> {
    if claims == [] then []
    else
      var c := claims[|claims| - 1];
      AddPort(Register(claims[..|claims| - 1]), c.port, c.container, NO_INSTANCE)
  }

  function ClaimedPorts(claims: seq<Claim>): set<int32> {
    set c | c in claims :: c.port
  }

  function StartState(claims: seq<Claim>): PortState {
    PortState(Register(claims), FIRST_DB_PORT)
  }

  // --- Runs: the requests of a pod, one after the other ------------------------------------

  datatype PortRun = PortRun(state: PortState, ports: seq<int32>, conflicts: nat)

  function Run(s: PortState, reqs: seq<Request>): (run: PortRun)
    ensures |run.ports| == |reqs|
  {
    if reqs == [] then PortRun(s, [], 0)
    else
      var before := Run(s, reqs[..|reqs| - 1]);
      var g := Use(before.state, reqs[|reqs| - 1]);
      PortRun(g.state, before.ports + [g.port], before.conflicts + if g.conflict then 1 else 0)
  }

  lemma {:induction false} RunPrefix(s: PortState, reqs: seq<Request>, n: nat)
    requires n <= |reqs|
    ensures Run(s, reqs[..n]).ports == Run(s, reqs).ports[..n]
    ensures Run(s, reqs[..n]).conflicts <= Run(s, reqs).conflicts
  {
    if n == |reqs| {
      assert reqs[..n] == reqs;
    } else {
      var rest := reqs[..|reqs| - 1];
      RunPrefix(s, rest, n);
      assert rest[..n] == reqs[..n];
    }
  }

  // What the i-th request gets does not depend on later requests.
  lemma {:induction false} RunAt(s: PortState, reqs: seq<Request>, i: nat)
    requires i < |reqs|
    ensures Run(s, reqs).ports[i] == Use(Run(s, reqs[..i]).state, reqs[i]).port
  {
    RunPrefix(s, reqs, i + 1);
    assert reqs[..i + 1][..i] == reqs[..i];
    assert Run(s, reqs).ports[i] == Run(s, reqs[..i + 1]).ports[i];
  }

  // Every request has a key of its own, and none has the empty key.
  ghost predicate FreshKeys(reqs: seq<Request>) {
    && (forall i :: 0 <= i < |reqs| ==> reqs[i].key != NO_INSTANCE)
    && (forall i, j :: 0 <= i < j < |reqs| ==> reqs[i].key != reqs[j].key)
  }
}
