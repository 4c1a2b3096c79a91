// The pod admission webhook: list, match, configure.
module PodAdmission {
  import opened Prelude
  import opened PortTable
  import opened PortRuns
  import opened PortOrders
  import opened InstanceArgs
  import opened Api
  import opened Configuration
  import opened PodGuarantees
  import opened PodErrors
  import opened PodHealth
  import opened UpdateState
  import opened Matching
  import Names

  // The resource is not pending deletion and matches the pod or one of its existing transitive
  // owners of a supported kind.
  ghost predicate Applies(cluster: Cluster, pod: ObjectMeta, p: AuthProxyWorkload) {
    Selects(p, pod) || exists w :: OwnedBy(cluster, pod, w) && Selects(p, w)
  }

  // proxies lists exactly the resources that apply, each once, in some order.
  ghost predicate IsSelection(cluster: Cluster, pod: ObjectMeta, pl: seq<AuthProxyWorkload>, proxies: seq<AuthProxyWorkload>) {
    && (forall p :: p in proxies <==> p in pl && Applies(cluster, pod, p))
    && IdsDistinct(proxies)
  }

  datatype Response = Errored | Unchanged | Patched

  // listing is None when the list request fails.
  method Handle(cluster: Cluster, listing: Option<seq<AuthProxyWorkload>>, wl: PodWorkload, userAgent: string)
      returns (response: Response, ghost proxies: seq<AuthProxyWorkload>)
    requires wl.Valid() && Acyclic(cluster, wl.meta)
    requires listing.Some? ==> IsListing(listing.value, wl.meta.namespace)
    requires listing.Some? ==> |AppClaims(Views(wl.containers))| + |Jobs(listing.value)| < INT32_VALUES
    modifies wl, wl.containers
    ensures wl.Valid()
    ensures listing.None? || Unreadable(cluster, wl.meta) ==> response.Errored?
    ensures listing.Some? && !Unreadable(cluster, wl.meta) ==>
              var before := old(Views(wl.containers));
              && IsSelection(cluster, wl.meta, listing.value, proxies)
              && (response.Unchanged? <==> proxies == [])
              && (response.Errored? <==> proxies != [] && Final(before, proxies).errors != [])
              && (response.Patched? ==> Views(wl.containers) == Configured(before, proxies, userAgent))
    ensures response.Unchanged? ==> Views(wl.containers) == old(Views(wl.containers))
    ensures !response.Patched? ==> wl.containers == old(wl.containers)
  {
    hide Final, Configured, AppClaims, Jobs, OwnedBy, Unreadable, Selects;
    proxies := [];
    if listing.None? {
      return Errored, proxies;
    }
    AcyclicIsShallow(cluster, wl.meta);
    var owners := ListOwners(cluster, wl.meta, |cluster.objects| + 1);
    if owners.OwnersFailed? {
      return Errored, proxies;
    }
    var matches := FindMatching(listing.value, wl.meta, owners.list, wl.meta.namespace);
    proxies := matches;
    SelectionFound(cluster, wl.meta, listing.value, owners.list, matches);
    if matches == [] {
      return Unchanged, proxies;
    }
    JobsWithin(matches, listing.value);
    var err := ConfigureWorkload(wl, matches, userAgent);
    return (if err.Some? then Errored else Patched), proxies;
  }

  lemma {:induction false} SelectionFound(cluster: Cluster, pod: ObjectMeta, pl: seq<AuthProxyWorkload>,
                                          owners: seq<ObjectMeta>, found: seq<AuthProxyWorkload>)
    requires IsListing(pl, pod.namespace)
    requires forall w :: w in owners ==> w == EMPTY_WORKLOAD || OwnedBy(cluster, pod, w)
    requires forall w :: OwnedBy(cluster, pod, w) ==> w in owners
    requires forall p :: p in found <==> p in pl && SelectedBySome(p, pod, owners)
    requires IdsDistinct(found)
    ensures IsSelection(cluster, pod, pl, found)
  {
    forall p | p in pl ensures SelectedBySome(p, pod, owners) <==> Applies(cluster, pod, p) {
      MissingOwnersNeverMatch(p);
    }
  }

  lemma {:induction false} JobsLast(ms: seq<AuthProxyWorkload>, m: AuthProxyWorkload)
    ensures Jobs(ms + [m]) == Jobs(ms) + JobsOf(m)
  {
    assert (ms + [m])[..|ms|] == ms;
  }

  lemma {:induction false} JobsRemove(a: seq<AuthProxyWorkload>, x: AuthProxyWorkload, b: seq<AuthProxyWorkload>)
    ensures |Jobs(a + [x] + b)| == |Jobs(a + b)| + |JobsOf(x)|
  {
    hide Jobs, JobsOf;
    if b == [] {
      JobsLast(a, x);
      assert a + [x] + b == a + [x] && a + b == a;
    } else {
      var rest, y := b[..|b| - 1], b[|b| - 1];
      JobsRemove(a, x, rest);
      JobsLast(a + [x] + rest, y);
      JobsLast(a + rest, y);
      assert a + [x] + b == a + [x] + rest + [y] && a + b == a + rest + [y];
    }
  }

  lemma {:induction false} RemoveOne(ms: seq<AuthProxyWorkload>, rest: seq<AuthProxyWorkload>, k: nat)
    requires IdsDistinct(ms) && k < |ms|
    requires forall m :: m in ms ==> m in rest || m == ms[k]
    ensures ms == ms[..k] + [ms[k]] + ms[k + 1..]
    ensures IdsDistinct(ms[..k] + ms[k + 1..])
    ensures forall m :: m in ms[..k] + ms[k + 1..] ==> m in rest
  {
    var others := ms[..k] + ms[k + 1..];
    var at := (i: nat) => if i < k then i else i + 1;
    assert forall i: nat :: i < |others| ==> others[i] == ms[at(i)];
    forall i, j | 0 <= i < j < |others| ensures others[i].id != others[j].id {
      assert at(i) < at(j);
    }
    forall m | m in others ensures m in rest {
      var i: nat :| i < |others| && others[i] == m;
      assert ms[at(i)] in ms;
      assert ms[at(i)].id != ms[k].id;
    }
  }

  lemma {:induction false} JobsWithin(ms: seq<AuthProxyWorkload>, pl: seq<AuthProxyWorkload>)
    requires IdsDistinct(ms)
    requires forall m :: m in ms ==> m in pl
    ensures |Jobs(ms)| <= |Jobs(pl)|
    decreases |pl|
  {
    assert forall i :: 0 <= i < |ms| ==> ms[i] in ms;
    if pl != [] {
      hide Jobs, JobsOf, IdsDistinct;
      var rest, x := pl[..|pl| - 1], pl[|pl| - 1];
      assert pl == rest + [x];
      JobsLast(rest, x);
      if k :| 0 <= k < |ms| && ms[k] == x {
        RemoveOne(ms, rest, k);
        JobsRemove(ms[..k], x, ms[k + 1..]);
        JobsWithin(ms[..k] + ms[k + 1..], rest);
      } else {
        JobsWithin(ms, rest);
      }
    }
  }

  // --- What an admitted pod promises -------------------------------------------------------

  // c is the proxy container of p, and gives instance b the port.
  ghost predicate ServedBy(c: ContainerSpec, p: AuthProxyWorkload, b: nat, port: int32)
    requires b < |p.instances|
  {
    c.name == Names.ContainerName(p.id) && ArgumentIs(c, p, b, InstanceArg(p.instances[b], port))
  }

  // Among the selected resources, p is one that lists instance b for its proxy.
  ghost predicate Serves(proxies: seq<AuthProxyWorkload>, p: AuthProxyWorkload, b: nat) {
    p in proxies && !p.Overridden() && b < |p.instances|
  }

  // The port that instance b of p gets.
  ghost function AdmittedPort(before: seq<ContainerSpec>, proxies: seq<AuthProxyWorkload>, p: AuthProxyWorkload, b: nat): int32
    requires Serves(proxies, p, b)
  {
    var a :| 0 <= a < |proxies| && proxies[a] == p;
    PortOf(before, proxies, a, b)
  }

  lemma {:induction false} AdmittedPortIs(before: seq<ContainerSpec>, proxies: seq<AuthProxyWorkload>, p: AuthProxyWorkload, b: nat)
      returns (a: nat)
    requires Serves(proxies, p, b)
    ensures a < |proxies| && proxies[a] == p && AdmittedPort(before, proxies, p, b) == PortOf(before, proxies, a, b)
  {
    a :| 0 <= a < |proxies| && proxies[a] == p && AdmittedPort(before, proxies, p, b) == PortOf(before, proxies, a, b);
  }

  // The port is the one that the instance asks for, if it does; no application container and
  // no other instance has it.
  ghost predicate PortIsOwn(before: seq<ContainerSpec>, proxies: seq<AuthProxyWorkload>, p: AuthProxyWorkload, b: nat)
    requires Serves(proxies, p, b)
  {
    var port := AdmittedPort(before, proxies, p, b);
    && (p.instances[b].port.Some? ==> port == p.instances[b].port.value)
    && port !in AppPorts(before)
    && forall q, d: nat :: Serves(proxies, q, d) && (q, d) != (p, b) ==> AdmittedPort(before, proxies, q, d) != port
  }

  lemma {:induction false} PortIsOwnFor(before: seq<ContainerSpec>, proxies: seq<AuthProxyWorkload>, p: AuthProxyWorkload, b: nat)
    requires WellNamed(proxies) && Final(before, proxies).errors == [] && Serves(proxies, p, b)
    ensures PortIsOwn(before, proxies, p, b)
  {
    var a := AdmittedPortIs(before, proxies, p, b);
    EveryInstanceReachable(before, proxies, "", a, b);
    hide Final, Configured, AppPorts, PortOf, EnvironmentSays, ArgumentIs, AdmittedPort, WellNamed;
    forall q, d: nat | Serves(proxies, q, d) && (q, d) != (p, b)
      ensures AdmittedPort(before, proxies, q, d) != AdmittedPort(before, proxies, p, b)
    {
      var c := AdmittedPortIs(before, proxies, q, d);
      assert (a, b) != (c, d);
    }
  }

  // Container i is the proxy of p and serves instance b on its port, and every container finds
  // that port in its environment.
  ghost predicate ServedAt(after: seq<ContainerSpec>, i: nat, p: AuthProxyWorkload, b: nat, port: int32)
    requires b < |p.instances|
  {
    i < |after| && ServedBy(after[i], p, b, port) && EnvironmentSays(after, p.instances[b], port)
  }

  lemma {:induction false} ServedAtFor(before: seq<ContainerSpec>, proxies: seq<AuthProxyWorkload>, userAgent: string,
                                       p: AuthProxyWorkload, b: nat)
      returns (i: nat)
    requires WellNamed(proxies) && Final(before, proxies).errors == [] && Serves(proxies, p, b)
    ensures ServedAt(Configured(before, proxies, userAgent), i, p, b, AdmittedPort(before, proxies, p, b))
  {
    var a := AdmittedPortIs(before, proxies, p, b);
    EveryInstanceReachable(before, proxies, userAgent, a, b);
    ProxyNamed(before, proxies, userAgent, a);
    hide Final, Configured, AppPorts, PortOf, InstanceArg, EnvironmentSays, ArgumentIs, AdmittedPort, WellNamed;
    i := |before| + a;
  }

  // Every instance of every resource that applies to an admitted pod, and is not overridden,
  // is served by its proxy container on a port of its own.
  lemma {:induction false} AdmittedPodServes(cluster: Cluster, pod: ObjectMeta, pl: seq<AuthProxyWorkload>, proxies: seq<AuthProxyWorkload>,
                                             before: seq<ContainerSpec>, userAgent: string, p: AuthProxyWorkload, b: nat)
      returns (i: nat)
    requires IsListing(pl, pod.namespace) && IsSelection(cluster, pod, pl, proxies)
    requires forall q :: q in proxies ==> NoInstanceTwice(q)
    requires Final(before, proxies).errors == []
    requires p in pl && Applies(cluster, pod, p) && !p.Overridden() && b < |p.instances|
    ensures Serves(proxies, p, b)
    ensures PortIsOwn(before, proxies, p, b)
    ensures ServedAt(Configured(before, proxies, userAgent), i, p, b, AdmittedPort(before, proxies, p, b))
  {
    assert p in proxies;
    SelectionWellNamed(cluster, pod, pl, proxies);
    hide Final, Configured, Applies, AdmittedPort, PortIsOwn, ServedAt, WellNamed;
    PortIsOwnFor(before, proxies, p, b);
    i := ServedAtFor(before, proxies, userAgent, p, b);
  }

  lemma {:induction false} ProxyNamed(before: seq<ContainerSpec>, proxies: seq<AuthProxyWorkload>, userAgent: string, a: nat)
    requires a < |proxies|
    ensures Configured(before, proxies, userAgent)[|before| + a].name == Names.ContainerName(proxies[a].id)
  {
    var added := Proxies(Start(before), proxies, userAgent);
    assert (before + added)[|before| + a] == added[a];
  }

  lemma {:induction false} SelectionWellNamed(cluster: Cluster, pod: ObjectMeta, pl: seq<AuthProxyWorkload>, proxies: seq<AuthProxyWorkload>)
    requires IsListing(pl, pod.namespace) && IsSelection(cluster, pod, pl, proxies)
    requires forall q :: q in proxies ==> NoInstanceTwice(q)
    ensures WellNamed(proxies)
  {
    forall a | 0 <= a < |proxies| ensures proxies[a].id.name != "" && NoInstanceTwice(proxies[a]) {
      assert proxies[a] in proxies;
    }
  }

  // --- Order of the matches ----------------------------------------------------------------

  lemma {:induction false} JobsElements(ms: seq<AuthProxyWorkload>, job: Job)
    ensures job in Jobs(ms) <==> exists m, b :: m in ms && 0 <= b < |JobsOf(m)| && job == JobsOf(m)[b]
  {
    if job in Jobs(ms) {
      var i :| 0 <= i < |Jobs(ms)| && Jobs(ms)[i] == job;
      var a, b := JobsComeFrom(ms, i);
      assert ms[a] in ms && job == JobsOf(ms[a])[b];
    }
    if m, b :| m in ms && 0 <= b < |JobsOf(m)| && job == JobsOf(m)[b] {
      var a :| 0 <= a < |ms| && ms[a] == m;
      JobAfterBefore(ms, a, b);
      assert Jobs(ms)[|Before(ms, a, b)|] == job;
    }
  }

  // Two orders of one selection, in which no resource names a connection string twice.
  ghost predicate TwoOrders(cluster: Cluster, pod: ObjectMeta, pl: seq<AuthProxyWorkload>,
                            one: seq<AuthProxyWorkload>, two: seq<AuthProxyWorkload>)
  {
    && IsListing(pl, pod.namespace) && IsSelection(cluster, pod, pl, one) && IsSelection(cluster, pod, pl, two)
    && forall q :: q in one ==> NoInstanceTwice(q)
  }

  lemma {:induction false} SameJobs(cluster: Cluster, pod: ObjectMeta, pl: seq<AuthProxyWorkload>,
                                    one: seq<AuthProxyWorkload>, two: seq<AuthProxyWorkload>)
    requires TwoOrders(cluster, pod, pl, one, two)
    ensures WellNamed(one) && WellNamed(two)
    ensures Elements(Jobs(one)) == Elements(Jobs(two))
    ensures IsOrder(Requests(Jobs(one)), Elements(Requests(Jobs(two))))
    ensures IsOrder(Requests(Jobs(two)), Elements(Requests(Jobs(one))))
    ensures |Jobs(one)| == |Jobs(two)|
  {
    forall p ensures p in one <==> p in two {
    }
    SelectionWellNamed(cluster, pod, pl, one);
    SelectionWellNamed(cluster, pod, pl, two);
    WellNamedKeysFresh(one);
    WellNamedKeysFresh(two);
    forall job ensures job in Jobs(one) <==> job in Jobs(two) {
      JobsElements(one, job);
      JobsElements(two, job);
    }
    SameRequests(Jobs(one), Jobs(two));
    FreshSize(Requests(Jobs(one)));
    FreshSize(Requests(Jobs(two)));
  }

  lemma {:induction false} SameRequests(a: seq<Job>, b: seq<Job>)
    requires forall job :: job in a <==> job in b
    ensures Elements(Requests(a)) == Elements(Requests(b))
  {
    forall r ensures r in Requests(a) <==> r in Requests(b) {
      RequestsElements(a, r);
      RequestsElements(b, r);
    }
  }

  lemma {:induction false} RequestsElements(jobs: seq<Job>, r: Request)
    ensures r in Requests(jobs) <==> exists job :: job in jobs && r == PortRequest(job)
  {
    if r in Requests(jobs) {
      var i :| 0 <= i < |jobs| && Requests(jobs)[i] == r;
      assert jobs[i] in jobs;
    }
    if job :| job in jobs && r == PortRequest(job) {
      var i :| 0 <= i < |jobs| && jobs[i] == job;
      assert Requests(jobs)[i] == r;
    }
  }

  ghost predicate AllExplicit(reqs: seq<Request>) {
    forall r :: r in reqs ==> r.wanted.Some?
  }

  // The order in which map iteration yields the matches decides nothing if all ports are
  // automatic or all are explicit: the pod is admitted in every order or in none.  Automatic
  // ports never conflict, and the same ports are in use in every order.
  lemma {:induction false} MatchOrderIrrelevant(cluster: Cluster, pod: ObjectMeta, pl: seq<AuthProxyWorkload>,
                                                one: seq<AuthProxyWorkload>, two: seq<AuthProxyWorkload>, before: seq<ContainerSpec>)
    requires TwoOrders(cluster, pod, pl, one, two)
    requires |AppClaims(before)| + |Jobs(one)| <= INT32_VALUES
    requires AllAutomatic(Requests(Jobs(one))) || AllExplicit(Requests(Jobs(one)))
    ensures Final(before, one).errors == [] <==> Final(before, two).errors == []
    ensures CountCode(Final(before, one).errors, PortConflict) == 0 <==> CountCode(Final(before, two).errors, PortConflict) == 0
    ensures AllAutomatic(Requests(Jobs(one))) ==>
              && CountCode(Final(before, one).errors, PortConflict) == 0
              && PortsOf(Final(before, one).ports.entries) == PortsOf(Final(before, two).ports.entries)
  {
    SameJobs(cluster, pod, pl, one, two);
    ErrorFreeIff(before, one);
    ErrorFreeIff(before, two);
    ErrorsReported(Start(before), Jobs(one));
    ErrorsReported(Start(before), Jobs(two));
    PortProjection(Start(before), Jobs(one));
    PortProjection(Start(before), Jobs(two));
    hide WellNamed, Run, Jobs, EnvNamesApart, DoJobs, AllAutomatic, AllExplicit, TwoOrders;
    UniformOrders(AppClaims(before), Requests(Jobs(one)), Requests(Jobs(two)));
  }

  lemma {:induction false} UniformOrders(claims: seq<Claim>, p: seq<Request>, q: seq<Request>)
    requires IsOrder(p, Elements(q)) && IsOrder(q, Elements(p)) && |claims| + |p| <= INT32_VALUES
    requires AllAutomatic(p) || AllExplicit(p)
    ensures Run(StartState(claims), p).conflicts == 0 <==> Run(StartState(claims), q).conflicts == 0
    ensures AllAutomatic(p) ==>
              && Run(StartState(claims), p).conflicts == 0
              && PortsOf(Run(StartState(claims), p).state.entries) == PortsOf(Run(StartState(claims), q).state.entries)
  {
    hide Run;
    if AllAutomatic(p) {
      AutomaticOrderIrrelevant(claims, p, q);
    } else {
      forall i | 0 <= i < |q| ensures q[i].wanted.Some? {
        assert q[i] in Elements(p);
      }
      ExplicitConflictIff(claims, p);
      ExplicitConflictIff(claims, q);
    }
  }

  // In the mixed case no order has a port conflict if the explicit ports are apart and below
  // each of them from 5000 on there are as many free ports as automatic requests; then only
  // the names of variables decide, whatever the order.
  lemma {:induction false} MixedOrderIrrelevant(cluster: Cluster, pod: ObjectMeta, pl: seq<AuthProxyWorkload>,
                                                one: seq<AuthProxyWorkload>, two: seq<AuthProxyWorkload>, before: seq<ContainerSpec>)
    requires TwoOrders(cluster, pod, pl, one, two) && CountersFit(AppClaims(before), Requests(Jobs(one)))
    requires ExplicitPortsApart(AppClaims(before), Elements(Requests(Jobs(one))))
    requires RoomInAnyOrder(AppClaims(before), Elements(Requests(Jobs(one))))
    ensures CountCode(Final(before, one).errors, PortConflict) == CountCode(Final(before, two).errors, PortConflict) == 0
    ensures Final(before, one).errors == [] <==> EnvNamesApart(Elements(Jobs(one)))
    ensures Final(before, two).errors == [] <==> EnvNamesApart(Elements(Jobs(one)))
  {
    SameJobs(cluster, pod, pl, one, two);
    hide WellNamed, Jobs, EnvNamesApart, DoJobs, RoomInAnyOrder, ExplicitPortsApart;
    NoOrderConflictsIff(AppClaims(before), Requests(Jobs(one)));
    hide Run;
    ErrorFreeIff(before, one);
    ErrorFreeIff(before, two);
    ErrorsReported(Start(before), Jobs(one));
    ErrorsReported(Start(before), Jobs(two));
  }

  // No proxy shares its health-check port with an instance in any order of the matches, if in
  // one of them no instance asks for one of the n ports from 9801 on.
  lemma {:induction false} HealthPortsSafeInAnyOrder(cluster: Cluster, pod: ObjectMeta, pl: seq<AuthProxyWorkload>,
                                                     one: seq<AuthProxyWorkload>, two: seq<AuthProxyWorkload>, before: seq<ContainerSpec>,
                                                     userAgent: string, n: nat, a: nat)
    requires TwoOrders(cluster, pod, pl, one, two) && ClearOfHealth(one, n)
    requires |AppClaims(before)| + |Jobs(one)| <= n <= SMALL_POD
    requires a < |two| && !two[a].Overridden()
    ensures forall c, d :: 0 <= c < |two| && 0 <= d < |JobsOf(two[c])| ==>
              ProbePort(before, two, userAgent, a) != Some(PortOf(before, two, c, d))
  {
    SameJobs(cluster, pod, pl, one, two);
    assert forall p :: p in two ==> p in one;
    hide WellNamed, Jobs, ProbePort, PortOf;
    HealthPortsSafe(before, two, userAgent, n, a);
  }
}
