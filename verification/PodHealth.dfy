// The health-check port of each proxy: it is chosen before the proxy's own instances get their
// ports, and it is not registered.
module PodHealth {
  import opened Prelude
  import opened Numerals
  import opened PortTable
  import opened PortRuns
  import opened PortOrders
  import opened EnvVars
  import opened Api
  import opened Configuration
  import opened PodGuarantees
  import opened PodErrors

  // --- The port that a proxy's probes ask --------------------------------------------------

  function ProbePort(containers: seq<ContainerSpec>, matches: seq<AuthProxyWorkload>, userAgent: string, a: nat): Option<int32>
    requires a < |matches|
  {
    Configured(containers, matches, userAgent)[|containers| + a].probePort
  }

  // The run of port requests that comes before match a.
  function RunBefore(containers: seq<ContainerSpec>, matches: seq<AuthProxyWorkload>, a: nat): PortRun
    requires a <= |matches|
  {
    Run(StartState(AppClaims(containers)), Requests(Jobs(matches[..a])))
  }

  // The probe of a proxy container and its --http-port argument name one port, which is neither
  // an application port nor the port of an instance of an earlier match.
  lemma {:induction false} HealthCheckAgrees(containers: seq<ContainerSpec>, matches: seq<AuthProxyWorkload>,
                                             userAgent: string, a: nat) returns (port: int32)
    requires WellNamed(matches) && a < |matches| && !matches[a].Overridden()
    requires 9801 + |AppClaims(containers)| + |Jobs(matches)| <= MAX_INT32
    ensures var c := Configured(containers, matches, userAgent)[|containers| + a];
            c.probePort == Some(port) && c.args != [] && c.args[0] == "--http-port=" + Decimal(port)
    ensures 9801 <= port && port !in AppPorts(containers)
    ensures forall c, d :: 0 <= c < a && 0 <= d < |JobsOf(matches[c])| ==> port != PortOf(containers, matches, c, d)
  {
    var jobs := Jobs(matches[..a]);
    var run := RunBefore(containers, matches, a);
    port := HealthPort(run.state.entries);
    PortProjection(Start(containers), jobs);
    HealthIsFree(containers, matches, a);
    HealthInContainer(containers, matches, userAgent, a);
    forall c, d | 0 <= c < a && 0 <= d < |JobsOf(matches[c])| ensures port != PortOf(containers, matches, c, d) {
      EarlierPortInUse(containers, matches, a, c, d);
    }
  }

  lemma {:induction false} WellNamedPrefix(matches: seq<AuthProxyWorkload>, a: nat)
    requires WellNamed(matches) && a <= |matches|
    ensures FreshKeys(Requests(Jobs(matches[..a])))
    ensures |Jobs(matches[..a])| <= |Jobs(matches)|
  {
    WellNamedKeysFresh(matches[..a]);
    if a < |matches| {
      BeforeIsPrefix(matches, a, 0);
    } else {
      assert matches[..a] == matches;
    }
  }

  lemma {:induction false} HealthIsFree(containers: seq<ContainerSpec>, matches: seq<AuthProxyWorkload>, a: nat)
    requires WellNamed(matches) && a < |matches|
    requires 9801 + |AppClaims(containers)| + |Jobs(matches)| <= MAX_INT32
    ensures var run := RunBefore(containers, matches, a);
            IsLeastFree(AppPorts(containers) + Elements(run.ports), 9801, HealthPort(run.state.entries))
  {
    var claims, reqs := AppClaims(containers), Requests(Jobs(matches[..a]));
    WellNamedPrefix(matches, a);
    FreshNeverRewrites(claims, reqs);
    HealthPortIsLeast(claims, reqs);
    TablePortsExact(claims, reqs);
  }

  lemma {:induction false} HealthInContainer(containers: seq<ContainerSpec>, matches: seq<AuthProxyWorkload>, userAgent: string, a: nat)
    requires a < |matches| && !matches[a].Overridden()
    ensures var c := Configured(containers, matches, userAgent)[|containers| + a];
            var port := HealthPort(DoJobs(Start(containers), Jobs(matches[..a])).ports.entries);
            c.probePort == Some(port) && c.args != [] && c.args[0] == "--http-port=" + Decimal(port)
  {
    hide DoJobs, HealthPort, Jobs, SettingsArgs, JobArgs, Start;
    var added := Proxies(Start(containers), matches, userAgent);
    assert (containers + added)[|containers| + a] == added[a];
  }

  lemma {:induction false} EarlierPortInUse(containers: seq<ContainerSpec>, matches: seq<AuthProxyWorkload>, a: nat, c: nat, d: nat)
    requires c < a < |matches| && d < |JobsOf(matches[c])|
    ensures PortOf(containers, matches, c, d) in
            Elements(RunBefore(containers, matches, a).ports)
  {
    assert matches[..a][..c] == matches[..c];
    PortOfIsGranted(containers, matches[..a], c, d);
    assert PortOf(containers, matches[..a], c, d) == PortOf(containers, matches, c, d);
  }

  // The ports in use when match a chooses its health-check port, and what it chooses.
  lemma {:induction false} ProbePortIs(containers: seq<ContainerSpec>, matches: seq<AuthProxyWorkload>, userAgent: string, a: nat)
    requires WellNamed(matches) && a < |matches| && !matches[a].Overridden()
    requires |AppClaims(containers)| + |Jobs(matches)| < INT32_VALUES
    ensures var run := RunBefore(containers, matches, a);
            && ProbePort(containers, matches, userAgent, a) == Some(HealthPort(run.state.entries))
            && PortsOf(run.state.entries) == AppPorts(containers) + Elements(run.ports)
            && |PortsOf(run.state.entries)| < INT32_VALUES
  {
    var claims, reqs := AppClaims(containers), Requests(Jobs(matches[..a]));
    PortProjection(Start(containers), Jobs(matches[..a]));
    HealthInContainer(containers, matches, userAgent, a);
    WellNamedPrefix(matches, a);
    FreshNeverRewrites(claims, reqs);
    TablePortsExact(claims, reqs);
    TableSize(claims, reqs);
  }

  // A port handed out before match a is the port of an instance of an earlier match.
  lemma {:induction false} EarlierInstance(containers: seq<ContainerSpec>, matches: seq<AuthProxyWorkload>, a: nat, p: int32)
      returns (c: nat, d: nat)
    requires a <= |matches| && p in Elements(RunBefore(containers, matches, a).ports)
    ensures c < a && d < |JobsOf(matches[c])| && PortOf(containers, matches, c, d) == p
  {
    var ports := RunBefore(containers, matches, a).ports;
    var i :| 0 <= i < |ports| && ports[i] == p;
    c, d := JobsComeFrom(matches[..a], i);
    PortOfIsGranted(containers, matches[..a], c, d);
    assert matches[..a][..c] == matches[..c];
  }

  // --- Two proxies of one pod --------------------------------------------------------------

  // Two proxies get one health-check port exactly when no instance of a match from the first
  // up to the second has it.
  lemma {:induction false} HealthPortsEqualIff(containers: seq<ContainerSpec>, matches: seq<AuthProxyWorkload>,
                                               userAgent: string, a: nat, c: nat)
    requires WellNamed(matches) && a < c < |matches| && !matches[a].Overridden() && !matches[c].Overridden()
    requires |AppClaims(containers)| + |Jobs(matches)| < INT32_VALUES
    ensures ProbePort(containers, matches, userAgent, a) == ProbePort(containers, matches, userAgent, c) <==>
            forall e, d :: a <= e < c && 0 <= d < |JobsOf(matches[e])| ==>
              ProbePort(containers, matches, userAgent, a) != Some(PortOf(containers, matches, e, d))
  {
    var first, second := RunBefore(containers, matches, a), RunBefore(containers, matches, c);
    var port := HealthPort(first.state.entries);
    ProbePortIs(containers, matches, userAgent, a);
    ProbePortIs(containers, matches, userAgent, c);
    FirstFreeIsFree(PortsOf(first.state.entries), 9801);
    hide Configured, PortOf, Run, RunBefore;
    forall p | p in Elements(first.ports) ensures p in Elements(second.ports) {
      var e, d := EarlierInstance(containers, matches, a, p);
      EarlierPortInUse(containers, matches, c, e, d);
    }
    HealthPortsCoincideIff(first.state.entries, second.state.entries);
    if port in Elements(second.ports) {
      var e, d := EarlierInstance(containers, matches, c, port);
      if e < a {
        EarlierPortInUse(containers, matches, a, e, d);
      }
    }
    forall e, d | a <= e < c && 0 <= d < |JobsOf(matches[e])|
      ensures PortOf(containers, matches, e, d) in Elements(second.ports)
    {
      EarlierPortInUse(containers, matches, c, e, d);
    }
  }

  // --- A proxy and an instance -------------------------------------------------------------

  // The automatic ports of so small a pod end below 9801.
  const SMALL_POD: nat := 4801

  // In a pod of at most 4801 declared ports and instances, an instance has a proxy's
  // health-check port exactly when it asks for it.
  lemma {:induction false} HealthPortTakenIff(containers: seq<ContainerSpec>, matches: seq<AuthProxyWorkload>, userAgent: string, a: nat)
    requires WellNamed(matches) && a < |matches| && !matches[a].Overridden()
    requires |AppClaims(containers)| + |Jobs(matches)| <= SMALL_POD
    ensures ProbePort(containers, matches, userAgent, a).Some?
    ensures forall c, d :: 0 <= c < |matches| && 0 <= d < |JobsOf(matches[c])| ==>
              (ProbePort(containers, matches, userAgent, a) == Some(PortOf(containers, matches, c, d)) <==>
               matches[c].instances[d].port == ProbePort(containers, matches, userAgent, a))
  {
    var port := HealthCheckAgrees(containers, matches, userAgent, a);
    forall c, d | 0 <= c < |matches| && 0 <= d < |JobsOf(matches[c])|
      ensures port == PortOf(containers, matches, c, d) <==> matches[c].instances[d].port == Some(port)
    {
      PortOfAsAsked(containers, matches, c, d);
    }
  }

  // A proxy of such a pod has the default health-check port exactly when no application
  // container declares it and no instance of an earlier match asks for it.
  lemma {:induction false} DefaultHealthPortIff(containers: seq<ContainerSpec>, matches: seq<AuthProxyWorkload>, userAgent: string, a: nat)
    requires WellNamed(matches) && a < |matches| && !matches[a].Overridden()
    requires |AppClaims(containers)| + |Jobs(matches)| <= SMALL_POD
    ensures ProbePort(containers, matches, userAgent, a) == Some(9801) <==>
            && 9801 !in AppPorts(containers)
            && forall c, d :: 0 <= c < a && 0 <= d < |JobsOf(matches[c])| ==>
                 matches[c].instances[d].port != Some(9801)
  {
    var run := RunBefore(containers, matches, a);
    ProbePortIs(containers, matches, userAgent, a);
    DefaultIfFree(run.state.entries);
    if 9801 in Elements(run.ports) {
      var c, d := EarlierInstance(containers, matches, a, 9801);
      PortOfAsAsked(containers, matches, c, d);
    }
    forall c, d | 0 <= c < a && 0 <= d < |JobsOf(matches[c])| && matches[c].instances[d].port == Some(9801)
      ensures 9801 in Elements(run.ports)
    {
      PortOfAsAsked(containers, matches, c, d);
      EarlierPortInUse(containers, matches, a, c, d);
    }
  }

  lemma {:induction false} DefaultIfFree(entries: seq<PortEntry>)
    requires |PortsOf(entries)| < INT32_VALUES
    ensures HealthPort(entries) == 9801 <==> 9801 !in PortsOf(entries)
  {
    HopNext(HEALTH_CHECK_PORT, 0);
    FirstFreeIsFree(PortsOf(entries), HEALTH_CHECK_PORT);
    if HEALTH_CHECK_PORT !in PortsOf(entries) {
      FirstFreeUnique(PortsOf(entries), HEALTH_CHECK_PORT, 0);
    }
  }

  // No instance asks for one of the n ports from 9801 on.
  ghost predicate ClearOfHealth(matches: seq<AuthProxyWorkload>, n: nat) {
    forall p, d :: p in matches && 0 <= d < |JobsOf(p)| && p.instances[d].port.Some? ==>
      !(9801 <= p.instances[d].port.value < 9801 + n)
  }

  lemma {:induction false} ProbePortBound(containers: seq<ContainerSpec>, matches: seq<AuthProxyWorkload>, userAgent: string, a: nat)
    requires WellNamed(matches) && a < |matches| && !matches[a].Overridden()
    requires |AppClaims(containers)| + |Jobs(matches)| <= SMALL_POD
    ensures ProbePort(containers, matches, userAgent, a).Some?
    ensures var port := ProbePort(containers, matches, userAgent, a).value;
            9801 <= port <= 9801 + |AppClaims(containers)| + |Jobs(matches[..a])|
  {
    var claims, reqs := AppClaims(containers), Requests(Jobs(matches[..a]));
    ProbePortIs(containers, matches, userAgent, a);
    WellNamedPrefix(matches, a);
    FreshNeverRewrites(claims, reqs);
    hide ProbePort, Run, HealthPort;
    HealthPortIsLeast(claims, reqs);
  }

  lemma {:induction false} NotAskedFor(matches: seq<AuthProxyWorkload>, n: nat, c: nat, d: nat, port: int32)
    requires ClearOfHealth(matches, n) && c < |matches| && d < |JobsOf(matches[c])|
    requires 9801 <= port < 9801 + n
    ensures matches[c].instances[d].port != Some(port)
  {
    assert matches[c] in matches;
  }

  // If no instance asks for one of the n ports from 9801 on, where n is the size of the pod, no
  // proxy shares its health-check port with an instance, in whatever order the matches come.
  lemma {:induction false} HealthPortsSafe(containers: seq<ContainerSpec>, matches: seq<AuthProxyWorkload>,
                                           userAgent: string, n: nat, a: nat)
    requires WellNamed(matches) && ClearOfHealth(matches, n) && a < |matches| && !matches[a].Overridden()
    requires |AppClaims(containers)| + |Jobs(matches)| <= n <= SMALL_POD
    ensures forall c, d :: 0 <= c < |matches| && 0 <= d < |JobsOf(matches[c])| ==>
              ProbePort(containers, matches, userAgent, a) != Some(PortOf(containers, matches, c, d))
  {
    hide ProbePort, PortOf, Jobs, JobsOf, WellNamed, ClearOfHealth, AppClaims;
    ProbePortBound(containers, matches, userAgent, a);
    HealthPortTakenIff(containers, matches, userAgent, a);
    forall c, d | 0 <= c < |matches| && 0 <= d < |JobsOf(matches[c])|
      ensures ProbePort(containers, matches, userAgent, a) != Some(PortOf(containers, matches, c, d))
    {
      if a <= c {
        InstanceAfter(matches, a, c, d);
        NotAskedFor(matches, n, c, d, ProbePort(containers, matches, userAgent, a).value);
      } else {
        EarlierPortDiffers(containers, matches, userAgent, a, c, d);
      }
    }
  }

  lemma {:induction false} EarlierPortDiffers(containers: seq<ContainerSpec>, matches: seq<AuthProxyWorkload>, userAgent: string,
                                              a: nat, c: nat, d: nat)
    requires WellNamed(matches) && c < a < |matches| && !matches[a].Overridden() && d < |JobsOf(matches[c])|
    requires |AppClaims(containers)| + |Jobs(matches)| <= SMALL_POD
    ensures ProbePort(containers, matches, userAgent, a) != Some(PortOf(containers, matches, c, d))
  {
    var port := HealthCheckAgrees(containers, matches, userAgent, a);
    assert port != PortOf(containers, matches, c, d);
  }

  lemma {:induction false} InstanceAfter(matches: seq<AuthProxyWorkload>, a: nat, c: nat, d: nat)
    requires WellNamed(matches) && a <= c < |matches| && d < |JobsOf(matches[c])|
    ensures |Jobs(matches[..a])| < |Jobs(matches)|
  {
    JobAfterBefore(matches, c, d);
    assert matches[..c][..a] == matches[..a];
    WellNamedPrefix(matches[..c], a);
  }

  // --- Ordinary pods that show it ----------------------------------------------------------

  // A single resource whose instance asks for port 9801: its proxy's probes and that instance
  // get the same port, and no error is reported.
  lemma {:induction false} HealthPortGivenAway(id: NamespacedName, x: string, userAgent: string)
    requires id.name != ""
    ensures var m := Resource(id, [TcpInstance(x, Some(9801))]);
            && Final([], [m]).errors == []
            && PortOf([], [m], 0, 0) == 9801
            && ProbePort([], [m], userAgent, 0) == Some(9801)
  {
    var instances := [TcpInstance(x, Some(9801))];
    var m, key := Resource(id, instances), InstanceKey(id, x);
    assert Requests(JobsOf(m)) == [Request(key, Some(9801))];
    SingleRequest(key, 9801);
    hide Run, Final, PortOf, Requests, ProbePort;
    RunsInto(id, instances, [9801]);
    SmallExample(m);
    DefaultHealthPortIff([], [m], userAgent, 0);
  }

  lemma {:induction false} SingleRequest(key: InstanceKey, p: int32)
    ensures var run := Run(StartState([]), [Request(key, Some(p))]); run.conflicts == 0 && run.ports == [p]
  {
    assert [] + [Request(key, Some(p))] == [Request(key, Some(p))];
    RunAppend(StartState([]), [], Request(key, Some(p)));
    FileOnly([], key, p, FIRST_DB_PORT);
  }

  lemma {:induction false} SmallExample(m: AuthProxyWorkload)
    requires m.id.name != "" && |m.instances| == 1
    ensures WellNamed([m]) && |AppClaims([])| + |Jobs([m])| <= SMALL_POD && AppPorts([]) == {}
  {
    assert AppClaims([]) == [] && ClaimedPorts([]) == {};
    assert [m][..0] == [];
    assert Jobs([]) + JobsOf(m) == JobsOf(m);
  }

  // Automatic ports and no port variables: such a pod is configured without error.
  lemma {:induction false} AutomaticConfigures(matches: seq<AuthProxyWorkload>)
    requires WellNamed(matches) && |Jobs(matches)| <= SMALL_POD
    requires forall i :: 0 <= i < |Jobs(matches)| ==>
               Jobs(matches)[i].inst.port == None && Jobs(matches)[i].inst.portEnvName == ""
    ensures Final([], matches).errors == []
  {
    assert AppClaims([]) == [];
    WellNamedKeysFresh(matches);
    ErrorFreeIff([], matches);
    hide Run, Final, Jobs;
    AutomaticRun([], Requests(Jobs(matches)));
  }

  // Two resources with one automatic instance each: both proxies' probes ask port 9801.
  lemma {:induction false} TwoProxiesOnePort(p: NamespacedName, q: NamespacedName, x: string, y: string, userAgent: string)
    requires p.name != "" && q.name != "" && p != q
    ensures var matches := [Resource(p, [TcpInstance(x, None)]), Resource(q, [TcpInstance(y, None)])];
            && Final([], matches).errors == []
            && ProbePort([], matches, userAgent, 0) == ProbePort([], matches, userAgent, 1) == Some(9801)
  {
    var m, n := Resource(p, [TcpInstance(x, None)]), Resource(q, [TcpInstance(y, None)]);
    TwoJobs(m, n);
    hide Run, Final, Jobs, ProbePort, Requests;
    AutomaticConfigures([m, n]);
    DefaultHealthPortIff([], [m, n], userAgent, 0);
    DefaultHealthPortIff([], [m, n], userAgent, 1);
  }

  lemma {:induction false} TwoJobs(m: AuthProxyWorkload, n: AuthProxyWorkload)
    ensures Jobs([m, n]) == JobsOf(m) + JobsOf(n)
    ensures AppClaims([]) == [] && AppPorts([]) == {}
  {
    assert [m, n][..1] == [m] && [m][..0] == [];
    assert Jobs([]) + JobsOf(m) == JobsOf(m);
  }
}
