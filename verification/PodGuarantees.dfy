// What a configured pod promises: agreement of ports, arguments and environment variables.
module PodGuarantees {
  import opened Prelude
  import opened Numerals
  import opened PortTable
  import opened PortRuns
  import opened PortOrders
  import opened EnvVars
  import opened InstanceArgs
  import opened Api
  import opened Configuration
  import Names

  // --- Projections: the pod's run is a port run and an environment run ---------------------

  function Requests(jobs: seq<Job>): (reqs: seq<Request>)
    ensures |reqs| == |jobs|
    ensures forall i :: 0 <= i < |jobs| ==> reqs[i] == PortRequest(jobs[i])
  {
    seq(|jobs|, i requires 0 <= i < |jobs| => PortRequest(jobs[i]))
  }

  function HostVar(job: Job): EnvEntry {
    EnvEntry(KeyOf(job), Plain(job.inst.hostEnvName, LOCALHOST))
  }

  function PortVar(job: Job, port: int32): EnvEntry {
    EnvEntry(KeyOf(job), Plain(job.inst.portEnvName, Decimal(port)))
  }

  function VarsOf(job: Job, port: int32): seq<EnvEntry> {
    (if job.inst.hostEnvName == "" then [] else [HostVar(job)])
    + (if job.inst.portEnvName == "" then [] else [PortVar(job, port)])
  }

  // Every variable that the jobs ask for, in order, each port variable with the granted port.
  function Asked(jobs: seq<Job>, ports: seq<int32>): seq<EnvEntry>
    requires |jobs| == |ports|
  {
    if jobs == [] then []
    else
      var n := |jobs| - 1;
      Asked(jobs[..n], ports[..n]) + VarsOf(jobs[n], ports[n])
  }

  function CountCode(errors: seq<ErrorDetail>, code: ErrorCode): nat {
    if errors == [] then 0
    else CountCode(errors[..|errors| - 1], code) + if errors[|errors| - 1].code == code then 1 else 0
  }

  lemma {:induction false} CountAppend(errors: seq<ErrorDetail>, e: ErrorDetail, code: ErrorCode)
    ensures CountCode(errors + [e], code) == CountCode(errors, code) + if e.code == code then 1 else 0
    ensures errors + [] == errors
  {
    assert (errors + [e])[..|errors|] == errors;
  }

  lemma {:induction false} CountAll(errors: seq<ErrorDetail>)
    ensures CountCode(errors, PortConflict) + CountCode(errors, EnvVarConflict) == |errors|
  {
    if errors != [] {
      CountAll(errors[..|errors| - 1]);
    }
  }

  lemma {:induction false} RequestsAppend(jobs: seq<Job>, n: nat)
    requires n < |jobs|
    ensures Requests(jobs[..n]) == Requests(jobs)[..n]
  {
  }

  lemma {:induction false} PortProjection(s: State, jobs: seq<Job>)
    ensures DoJobs(s, jobs).ports == Run(s.ports, Requests(jobs)).state
  {
    if jobs != [] {
      PortProjection(s, jobs[..|jobs| - 1]);
      RequestsAppend(jobs, |jobs| - 1);
    }
  }

  lemma {:induction false} JobPortIsGranted(s: State, jobs: seq<Job>, i: nat)
    requires i < |jobs|
    ensures JobPort(DoJobs(s, jobs[..i]), jobs[i]) == Run(s.ports, Requests(jobs)).ports[i]
  {
    PortProjection(s, jobs[..i]);
    RequestsAppend(jobs, i);
    RunAt(s.ports, Requests(jobs), i);
  }

  // The environment table and the errors, as far as the variables asked for determine them.
  ghost predicate Reflects(s: State, asked: seq<EnvEntry>, portConflicts: nat) {
    && s.env == Collect(asked).entries
    && CountCode(s.errors, EnvVarConflict) == Collect(asked).conflicts
    && CountCode(s.errors, PortConflict) == portConflicts
  }

  lemma {:induction false} AddVarReflects(s: State, job: Job, ev: EnvVar, asked: seq<EnvEntry>, n: nat)
    requires Reflects(s, asked, n)
    ensures Reflects(AddVar(s, job, ev), asked + [EnvEntry(KeyOf(job), ev)], n)
  {
    assert (asked + [EnvEntry(KeyOf(job), ev)])[..|asked|] == asked;
    CountAppend(s.errors, EnvError(job, ev.name), EnvVarConflict);
    CountAppend(s.errors, EnvError(job, ev.name), PortConflict);
  }

  lemma {:induction false} UsePortReflects(s: State, job: Job, asked: seq<EnvEntry>, n: nat)
    requires Reflects(s, asked, n)
    ensures Reflects(UsePort(s, job), asked, n + if Use(s.ports, PortRequest(job)).conflict then 1 else 0)
  {
    CountAppend(s.errors, PortError(job, JobPort(s, job)), EnvVarConflict);
    CountAppend(s.errors, PortError(job, JobPort(s, job)), PortConflict);
  }

  lemma {:induction false} DoJobReflects(s: State, job: Job, asked: seq<EnvEntry>, n: nat)
    requires Reflects(s, asked, n)
    ensures Reflects(DoJob(s, job), asked + VarsOf(job, JobPort(s, job)),
                     n + if Use(s.ports, PortRequest(job)).conflict then 1 else 0)
  {
    var port := JobPort(s, job);
    var m := n + if Use(s.ports, PortRequest(job)).conflict then 1 else 0;
    var host := if job.inst.hostEnvName == "" then [] else [HostVar(job)];
    UsePortReflects(s, job, asked, n);
    var s1 := UsePort(s, job);
    if host == [] {
      assert asked + host == asked;
    } else {
      AddVarReflects(s1, job, host[0].ev, asked, m);
    }
    var s2 := AddHostVar(s1, job);
    assert Reflects(s2, asked + host, m);
    if job.inst.portEnvName == "" {
      assert asked + VarsOf(job, port) == asked + host;
    } else {
      var ev := Plain(job.inst.portEnvName, Decimal(port));
      AddVarReflects(s2, job, ev, asked + host, m);
      assert asked + VarsOf(job, port) == asked + host + [PortVar(job, port)];
    }
  }

  lemma {:induction false} EnvProjection(s: State, jobs: seq<Job>)
    requires s.env == [] && s.errors == []
    ensures var run := Run(s.ports, Requests(jobs));
            Reflects(DoJobs(s, jobs), Asked(jobs, run.ports), run.conflicts)
  {
    if jobs != [] {
      var n := |jobs| - 1;
      EnvProjection(s, jobs[..n]);
      PortProjection(s, jobs[..n]);
      RequestsAppend(jobs, n);
      var before := Run(s.ports, Requests(jobs[..n]));
      DoJobReflects(DoJobs(s, jobs[..n]), jobs[n], Asked(jobs[..n], before.ports), before.conflicts);
      assert Run(s.ports, Requests(jobs)).ports[..n] == before.ports;
    }
  }

  // No error is reported exactly when the port run and the environment run have no conflict.
  lemma {:induction false} NoErrorsIff(s: State, jobs: seq<Job>)
    requires s.env == [] && s.errors == []
    ensures var run := Run(s.ports, Requests(jobs));
            DoJobs(s, jobs).errors == [] <==> run.conflicts == 0 && Agree(EnvVarsIn(Asked(jobs, run.ports)))
  {
    EnvProjection(s, jobs);
    EnvConflictIff(Asked(jobs, Run(s.ports, Requests(jobs)).ports));
    CountAll(DoJobs(s, jobs).errors);
  }

  // How many errors of each code configuring a pod reports.
  lemma {:induction false} ErrorsReported(s: State, jobs: seq<Job>)
    requires s.env == [] && s.errors == []
    ensures var run, errors := Run(s.ports, Requests(jobs)), DoJobs(s, jobs).errors;
            && CountCode(errors, PortConflict) == run.conflicts
            && (CountCode(errors, EnvVarConflict) == 0 <==> Agree(EnvVarsIn(Asked(jobs, run.ports))))
  {
    EnvProjection(s, jobs);
    EnvConflictIff(Asked(jobs, Run(s.ports, Requests(jobs)).ports));
  }

  lemma {:induction false} AskedPrefix(jobs: seq<Job>, ports: seq<int32>, n: nat)
    requires n <= |jobs| == |ports|
    ensures Asked(jobs[..n], ports[..n]) <= Asked(jobs, ports)
  {
    hide VarsOf;
    if n == |jobs| {
      assert jobs[..n] == jobs && ports[..n] == ports;
    } else {
      var m := |jobs| - 1;
      AskedPrefix(jobs[..m], ports[..m], n);
      assert jobs[..m][..n] == jobs[..n] && ports[..m][..n] == ports[..n];
    }
  }

  lemma {:induction false} AskedHas(jobs: seq<Job>, ports: seq<int32>, i: nat)
    requires |jobs| == |ports| && i < |jobs|
    ensures Elements(VarsOf(jobs[i], ports[i])) <= Elements(Asked(jobs, ports))
  {
    AskedPrefix(jobs, ports, i + 1);
    assert jobs[..i + 1][..i] == jobs[..i] && ports[..i + 1][..i] == ports[..i];
    var upTo := Asked(jobs[..i + 1], ports[..i + 1]);
    ElementsConcat(Asked(jobs[..i], ports[..i]), VarsOf(jobs[i], ports[i]));
    assert upTo == Asked(jobs, ports)[..|upTo|];
  }

  lemma {:induction false} AskedArePlain(jobs: seq<Job>, ports: seq<int32>)
    requires |jobs| == |ports|
    ensures forall r :: r in Asked(jobs, ports) ==> r.ev.source == None
  {
    if jobs != [] {
      AskedArePlain(jobs[..|jobs| - 1], ports[..|jobs| - 1]);
    }
  }

  // Without errors, a variable asked for has the value asked for in every container.
  lemma {:induction false} AskedIsSet(s: State, jobs: seq<Job>, r: EnvEntry, env: seq<EnvVar>)
    requires s.env == [] && s.errors == [] && DoJobs(s, jobs).errors == []
    requires r in Asked(jobs, Run(s.ports, Requests(jobs)).ports)
    ensures Lookup(Override(env, EnvVarsIn(DoJobs(s, jobs).env)), r.ev.name) == Some(r.ev)
  {
    var asked := Asked(jobs, Run(s.ports, Requests(jobs)).ports);
    var vars := EnvVarsIn(Collect(asked).entries);
    NoErrorsIff(s, jobs);
    EnvProjection(s, jobs);
    EnvConflictIff(asked);
    LookupOverride(env, vars, r.ev.name);
    var i :| 0 <= i < |asked| && asked[i] == r;
    RequestsHonoured(asked, i);
    TableAnswers(asked, r.ev.name);
    LookupFinds(EnvVarsIn(asked), r.ev.name);
    AskedArePlain(jobs, Run(s.ports, Requests(jobs)).ports);
    var j :| 0 <= j < |asked| && EnvVarsIn(asked)[j] == Lookup(vars, r.ev.name).value;
    assert asked[j] in asked;
  }

  // --- Positions of instances --------------------------------------------------------------

  // The job list as far as instance b of match a, exclusive.
  function Before(matches: seq<AuthProxyWorkload>, a: nat, b: nat): seq<Job>
    requires a < |matches| && b <= |JobsOf(matches[a])|
  {
    Jobs(matches[..a]) + JobsOf(matches[a])[..b]
  }

  lemma {:induction false} BeforeIsPrefix(matches: seq<AuthProxyWorkload>, a: nat, b: nat)
    requires a < |matches| && b <= |JobsOf(matches[a])|
    ensures Before(matches, a, b) <= Jobs(matches)
  {
    var n := |matches| - 1;
    if a < n {
      BeforeIsPrefix(matches[..n], a, b);
      assert matches[..n][..a] == matches[..a];
      assert Jobs(matches[..n]) <= Jobs(matches);
    } else {
      assert matches[..a] == matches[..n];
      assert JobsOf(matches[a])[..b] <= JobsOf(matches[a]);
    }
  }

  lemma {:induction false} PrefixExtended<T>(a: seq<T>, x: T, b: seq<T>, all: seq<T>)
    requires b == a + [x] && b <= all
    ensures |a| < |all| && all[..|a|] == a && all[|a|] == x
  {
    assert all[|a|] == b[|a|];
  }

  lemma {:induction false} JobAfterBefore(matches: seq<AuthProxyWorkload>, a: nat, b: nat)
    requires a < |matches| && b < |JobsOf(matches[a])|
    ensures var i := |Before(matches, a, b)|;
            && i < |Jobs(matches)| && Jobs(matches)[..i] == Before(matches, a, b)
            && Jobs(matches)[i] == Job(matches[a].id, matches[a].instances[b])
  {
    BeforeIsPrefix(matches, a, b + 1);
    PrefixExtended(Before(matches, a, b), JobsOf(matches[a])[b], Before(matches, a, b + 1), Jobs(matches));
  }

  // The port that instance b of match a gets.
  function PortOf(containers: seq<ContainerSpec>, matches: seq<AuthProxyWorkload>, a: nat, b: nat): int32
    requires a < |matches| && b < |JobsOf(matches[a])|
  {
    JobPort(DoJobs(Start(containers), Before(matches, a, b)), Job(matches[a].id, matches[a].instances[b]))
  }

  lemma {:induction false} PortOfIsGranted(containers: seq<ContainerSpec>, matches: seq<AuthProxyWorkload>, a: nat, b: nat)
    requires a < |matches| && b < |JobsOf(matches[a])|
    ensures var i := |Before(matches, a, b)|;
            && i < |Jobs(matches)|
            && PortOf(containers, matches, a, b) ==
               Run(Start(containers).ports, Requests(Jobs(matches))).ports[i]
  {
    JobAfterBefore(matches, a, b);
    JobPortIsGranted(Start(containers), Jobs(matches), |Before(matches, a, b)|);
  }

  // With a single match, instance b makes the b-th request.
  lemma {:induction false} PortOfOnly(containers: seq<ContainerSpec>, p: AuthProxyWorkload, b: nat)
    requires b < |JobsOf(p)|
    ensures Jobs([p]) == JobsOf(p)
    ensures PortOf(containers, [p], 0, b) ==
            Run(StartState(AppClaims(containers)), Requests(JobsOf(p))).ports[b]
  {
    assert [p][..0] == [];
    assert Jobs([]) + JobsOf(p) == JobsOf(p);
    assert |Before([p], 0, b)| == b;
    hide Run, Use, AppClaims, DoJobs;
    PortOfIsGranted(containers, [p], 0, b);
  }

  lemma {:induction false} BeforeSeparates(matches: seq<AuthProxyWorkload>, a: nat, b: nat, c: nat, d: nat)
    requires a < |matches| && b < |JobsOf(matches[a])|
    requires c < |matches| && d < |JobsOf(matches[c])|
    requires (a, b) != (c, d)
    ensures |Before(matches, a, b)| != |Before(matches, c, d)|
  {
    if a < c {
      BeforeOrdered(matches, a, b, c);
    } else if c < a {
      BeforeOrdered(matches, c, d, a);
    }
  }

  lemma {:induction false} BeforeOrdered(matches: seq<AuthProxyWorkload>, a: nat, b: nat, c: nat)
    requires a < c < |matches| && b < |JobsOf(matches[a])|
    ensures |Before(matches, a, b)| < |Jobs(matches[..c])|
  {
    JobAfterBefore(matches[..c], a, b);
    assert matches[..c][..a] == matches[..a];
  }

  // --- Keys --------------------------------------------------------------------------------

  // What the API server and the CRD guarantee of the matches: named, with names of their own,
  // and (the one thing left to the user) no connection string twice in one resource.
  ghost predicate WellNamed(matches: seq<AuthProxyWorkload>) {
    && (forall a :: 0 <= a < |matches| ==> matches[a].id.name != "" && NoInstanceTwice(matches[a]))
    && IdsDistinct(matches)
  }

  ghost predicate NoInstanceTwice(p: AuthProxyWorkload) {
    forall i, j :: 0 <= i < j < |p.instances| ==> p.instances[i].connectionString != p.instances[j].connectionString
  }

  lemma {:induction false} JobsComeFrom(matches: seq<AuthProxyWorkload>, i: nat) returns (a: nat, b: nat)
    requires i < |Jobs(matches)|
    ensures a < |matches| && b < |JobsOf(matches[a])| && i == |Before(matches, a, b)|
    ensures Jobs(matches)[i] == Job(matches[a].id, matches[a].instances[b])
  {
    var n := |matches| - 1;
    if i < |Jobs(matches[..n])| {
      a, b := JobsComeFrom(matches[..n], i);
      assert matches[..n][..a] == matches[..a];
    } else {
      a, b := n, i - |Jobs(matches[..n])|;
    }
  }

  lemma {:induction false} WellNamedKeysFresh(matches: seq<AuthProxyWorkload>)
    requires WellNamed(matches)
    ensures FreshKeys(Requests(Jobs(matches)))
  {
    var reqs := Requests(Jobs(matches));
    forall i | 0 <= i < |reqs| ensures reqs[i].key != NO_INSTANCE {
      var a, b := JobsComeFrom(matches, i);
      assert matches[a].id.name != "";
    }
    forall i, j | 0 <= i < j < |reqs| ensures reqs[i].key != reqs[j].key {
      var a, b := JobsComeFrom(matches, i);
      var c, d := JobsComeFrom(matches, j);
      if a == c {
        assert NoInstanceTwice(matches[a]) && b != d;
      } else {
        assert matches[a].id != matches[c].id;
      }
    }
  }

  // An explicit port is granted as asked; an automatic one is in the automatic range.
  lemma {:induction false} PortOfAsAsked(containers: seq<ContainerSpec>, matches: seq<AuthProxyWorkload>, a: nat, b: nat)
    requires WellNamed(matches) && a < |matches| && b < |JobsOf(matches[a])|
    requires CountersFit(AppClaims(containers), Requests(Jobs(matches)))
    ensures var inst, port := matches[a].instances[b], PortOf(containers, matches, a, b);
            if inst.port.Some? then port == inst.port.value
            else InAutomaticRange(port, |AppClaims(containers)| + |Jobs(matches)|)
  {
    var i := |Before(matches, a, b)|;
    WellNamedKeysFresh(matches);
    PortOfIsGranted(containers, matches, a, b);
    JobAfterBefore(matches, a, b);
    GrantedAt(AppClaims(containers), Requests(Jobs(matches)), i);
  }

  // --- Agreement ---------------------------------------------------------------------------

  lemma {:induction false} DoJobsAppend(s: State, a: seq<Job>, b: seq<Job>)
    ensures DoJobs(s, a + b) == DoJobs(DoJobs(s, a), b)
  {
    if b == [] {
      assert a + b == a;
    } else {
      var n := |b| - 1;
      DoJobsAppend(s, a, b[..n]);
      assert (a + b)[..|a + b| - 1] == a + b[..n];
    }
  }

  // Argument b of the instances, counted from the end of the proxy's argument list.
  ghost predicate ArgumentIs(c: ContainerSpec, p: AuthProxyWorkload, b: nat, arg: string) {
    |p.instances| <= |c.args| && b < |p.instances| && c.args[|c.args| - |p.instances| + b] == arg
  }

  lemma {:induction false} ArgumentCarriesPort(containers: seq<ContainerSpec>, matches: seq<AuthProxyWorkload>,
                                               userAgent: string, a: nat, b: nat)
    requires a < |matches| && b < |JobsOf(matches[a])|
    ensures ArgumentIs(Configured(containers, matches, userAgent)[|containers| + a], matches[a], b,
                       InstanceArg(matches[a].instances[b], PortOf(containers, matches, a, b)))
  {
    var s := Start(containers);
    var mid := DoJobs(s, Jobs(matches[..a]));
    DoJobsAppend(s, Jobs(matches[..a]), JobsOf(matches[a])[..b]);
    var c := ProxyContainer(mid, matches[a], userAgent);
    assert c.args[|c.args| - |matches[a].instances| + b] == JobArgs(mid, JobsOf(matches[a]))[b];
    assert (containers + Proxies(s, matches, userAgent))[|containers| + a] == Proxies(s, matches, userAgent)[a];
  }

  // The container finds the instance's port and the proxy's address in its environment.
  ghost predicate ContainerSays(c: ContainerSpec, inst: Instance, port: int32) {
    && (inst.portEnvName != "" ==> Lookup(c.env, inst.portEnvName) == Some(EnvVar(inst.portEnvName, Decimal(port), None)))
    && (inst.hostEnvName != "" ==> Lookup(c.env, inst.hostEnvName) == Some(EnvVar(inst.hostEnvName, "127.0.0.1", None)))
  }

  ghost predicate EnvironmentSays(cs: seq<ContainerSpec>, inst: Instance, port: int32) {
    forall i :: 0 <= i < |cs| ==> ContainerSays(cs[i], inst, port)
  }

  lemma {:induction false} JobVarsAreSet(s: State, jobs: seq<Job>, i: nat, c: ContainerSpec)
    requires s.env == [] && s.errors == [] && DoJobs(s, jobs).errors == [] && i < |jobs|
    ensures ContainerSays(WithEnv(c, DoJobs(s, jobs)), jobs[i].inst, Run(s.ports, Requests(jobs)).ports[i])
  {
    var ports := Run(s.ports, Requests(jobs)).ports;
    AskedHas(jobs, ports, i);
    var vars := VarsOf(jobs[i], ports[i]);
    forall r | r in vars ensures Lookup(WithEnv(c, DoJobs(s, jobs)).env, r.ev.name) == Some(r.ev) {
      assert r in Elements(vars);
      AskedIsSet(s, jobs, r, c.env);
    }
    assert jobs[i].inst.hostEnvName != "" ==> HostVar(jobs[i]) in vars;
    assert jobs[i].inst.portEnvName != "" ==> PortVar(jobs[i], ports[i]) in vars;
  }

  lemma {:induction false} EnvironmentAgrees(containers: seq<ContainerSpec>, matches: seq<AuthProxyWorkload>,
                                             userAgent: string, a: nat, b: nat)
    requires a < |matches| && b < |JobsOf(matches[a])|
    requires Final(containers, matches).errors == []
    ensures EnvironmentSays(Configured(containers, matches, userAgent), matches[a].instances[b], PortOf(containers, matches, a, b))
  {
    var s, jobs := Start(containers), Jobs(matches);
    var i := |Before(matches, a, b)|;
    PortOfIsGranted(containers, matches, a, b);
    JobAfterBefore(matches, a, b);
    var cs := Configured(containers, matches, userAgent);
    var all := containers + Proxies(s, matches, userAgent);
    forall k | 0 <= k < |cs| ensures ContainerSays(cs[k], matches[a].instances[b], PortOf(containers, matches, a, b)) {
      JobVarsAreSet(s, jobs, i, all[k]);
    }
  }

  function AppPorts(containers: seq<ContainerSpec>): set<int32> {
    ClaimedPorts(AppClaims(containers))
  }

  lemma {:induction false} AppPortsAre(containers: seq<ContainerSpec>, p: int32)
    ensures p in AppPorts(containers) <==>
            exists c :: c in containers && !("csql-" <= c.name) && p in c.ports
  {
    if containers != [] {
      var rest, c := containers[..|containers| - 1], containers[|containers| - 1];
      AppPortsAre(rest, p);
      assert containers == rest + [c];
      var claims := AppClaims(rest) + ClaimsOf(c);
      if p in ClaimedPorts(claims) {
        var q :| q in claims && q.port == p;
        if q in AppClaims(rest) {
          assert p in AppPorts(rest);
        }
      }
      if p in AppPorts(rest) {
        var q :| q in AppClaims(rest) && q.port == p;
        assert q in claims;
      }
      if !IsProxyName(c.name) && p in c.ports {
        var j :| 0 <= j < |c.ports| && c.ports[j] == p;
        assert ClaimsOf(c)[j] in claims;
      }
    }
  }

  // The end-to-end promise.  When configuring a pod reports no error, every instance of every
  // match that is not overridden has a port of its own: no other instance has it, no container
  // that is not a proxy declares it, the proxy's argument carries it, and every container of
  // the pod finds it, and the proxy's address, in its environment.
  lemma {:induction false} EveryInstanceReachable(containers: seq<ContainerSpec>, matches: seq<AuthProxyWorkload>,
                                                  userAgent: string, a: nat, b: nat)
    requires WellNamed(matches) && Final(containers, matches).errors == []
    requires a < |matches| && !matches[a].Overridden() && b < |matches[a].instances|
    ensures var inst, port := matches[a].instances[b], PortOf(containers, matches, a, b);
            && port !in AppPorts(containers)
            && (inst.port.Some? ==> port == inst.port.value)
            && ArgumentIs(Configured(containers, matches, userAgent)[|containers| + a], matches[a], b, InstanceArg(inst, port))
            && EnvironmentSays(Configured(containers, matches, userAgent), inst, port)
    ensures forall c, d :: 0 <= c < |matches| && 0 <= d < |JobsOf(matches[c])| && (a, b) != (c, d) ==>
              PortOf(containers, matches, a, b) != PortOf(containers, matches, c, d)
  {
    var claims, reqs := AppClaims(containers), Requests(Jobs(matches));
    NoErrorsIff(Start(containers), Jobs(matches));
    WellNamedKeysFresh(matches);
    FreshNeverRewrites(claims, reqs);
    OwnPorts(claims, reqs);
    PortOfIsGranted(containers, matches, a, b);
    JobAfterBefore(matches, a, b);
    var i := |Before(matches, a, b)|;
    RunAt(StartState(claims), reqs, i);
    FreshRunKeysAt(claims, reqs, i);
    ArgumentCarriesPort(containers, matches, userAgent, a, b);
    EnvironmentAgrees(containers, matches, userAgent, a, b);
    forall c, d | 0 <= c < |matches| && 0 <= d < |JobsOf(matches[c])| && (a, b) != (c, d)
      ensures PortOf(containers, matches, a, b) != PortOf(containers, matches, c, d)
    {
      PortOfIsGranted(containers, matches, c, d);
      BeforeSeparates(matches, a, b, c, d);
      assert reqs[i].key != reqs[|Before(matches, c, d)|].key;
    }
  }
}
