// When configuring a pod reports an error, decided from the pod and the matches alone.
module PodErrors {
  import opened Prelude
  import opened Numerals
  import opened PortTable
  import opened PortRuns
  import opened PortOrders
  import opened EnvVars
  import opened InstanceArgs
  import opened Api
  import opened Configuration
  import opened PodGuarantees

  // --- Variables ---------------------------------------------------------------------------

  ghost predicate SameNameSameValue(asked: seq<EnvEntry>) {
    forall q, r :: q in asked && r in asked && q.ev.name == r.ev.name ==> q.ev.value == r.ev.value
  }

  lemma {:induction false} AgreeIsOrderFree(asked: seq<EnvEntry>)
    ensures Agree(EnvVarsIn(asked)) <==> SameNameSameValue(asked)
  {
    if Agree(EnvVarsIn(asked)) {
      forall q, r | q in asked && r in asked && q.ev.name == r.ev.name ensures q.ev.value == r.ev.value {
        var i :| 0 <= i < |asked| && asked[i] == q;
        var j :| 0 <= j < |asked| && asked[j] == r;
        assert i < j || i == j || j < i;
      }
    }
    if SameNameSameValue(asked) {
      assert forall i :: 0 <= i < |asked| ==> asked[i] in asked;
    }
  }

  lemma {:induction false} AskedIff(jobs: seq<Job>, ports: seq<int32>, r: EnvEntry)
    requires |jobs| == |ports|
    ensures r in Asked(jobs, ports) <==> exists i :: 0 <= i < |jobs| && r in VarsOf(jobs[i], ports[i])
  {
    hide VarsOf;
    if jobs != [] {
      var n := |jobs| - 1;
      AskedIff(jobs[..n], ports[..n], r);
      assert r in Asked(jobs, ports) <==> r in Asked(jobs[..n], ports[..n]) || r in VarsOf(jobs[n], ports[n]);
      assert forall i :: 0 <= i < n ==> jobs[..n][i] == jobs[i] && ports[..n][i] == ports[i];
    }
  }

  // No port variable has the name of any other variable.
  ghost predicate EnvNamesApart(jobs: set<Job>) {
    && (forall p, q :: p in jobs && q in jobs && p != q && p.inst.portEnvName != "" ==>
          p.inst.portEnvName != q.inst.portEnvName)
    && (forall p, q :: p in jobs && q in jobs && p.inst.portEnvName != "" ==>
          p.inst.portEnvName != q.inst.hostEnvName)
  }

  lemma {:induction false} PortTextsDiffer(p: int32, q: int32)
    ensures Decimal(p) != LOCALHOST
    ensures p != q ==> Decimal(p) != Decimal(q)
  {
    DecimalIsPlain(p);
    assert '.' in LOCALHOST by {
      assert LOCALHOST[3] == '.';
    }
    DecimalReadsBack(p);
    DecimalReadsBack(q);
  }

  lemma {:induction false} AskedVarsOf(jobs: seq<Job>, ports: seq<int32>, i: nat)
    requires |jobs| == |ports| && i < |jobs|
    ensures jobs[i].inst.hostEnvName != "" ==> HostVar(jobs[i]) in Asked(jobs, ports)
    ensures jobs[i].inst.portEnvName != "" ==> PortVar(jobs[i], ports[i]) in Asked(jobs, ports)
  {
    AskedIff(jobs, ports, HostVar(jobs[i]));
    AskedIff(jobs, ports, PortVar(jobs[i], ports[i]));
    assert jobs[i].inst.hostEnvName != "" ==> HostVar(jobs[i]) in VarsOf(jobs[i], ports[i]);
    assert jobs[i].inst.portEnvName != "" ==> PortVar(jobs[i], ports[i]) in VarsOf(jobs[i], ports[i]);
  }

  // Port and host variables of two jobs that carry different values have different names.
  lemma {:induction false} AgreeingNamesApart(jobs: seq<Job>, ports: seq<int32>, i: nat, j: nat)
    requires |jobs| == |ports| && i < |jobs| && j < |jobs| && SameNameSameValue(Asked(jobs, ports))
    requires jobs[i].inst.portEnvName != ""
    ensures ports[i] != ports[j] ==> jobs[i].inst.portEnvName != jobs[j].inst.portEnvName
    ensures jobs[i].inst.portEnvName != jobs[j].inst.hostEnvName
  {
    hide Asked, Decimal, SameNameSameValue;
    AskedVarsOf(jobs, ports, i);
    AskedVarsOf(jobs, ports, j);
    PortTextsDiffer(ports[i], ports[j]);
    SameValue(Asked(jobs, ports), PortVar(jobs[i], ports[i]), PortVar(jobs[j], ports[j]));
    SameValue(Asked(jobs, ports), PortVar(jobs[i], ports[i]), HostVar(jobs[j]));
  }

  lemma {:induction false} SameValue(asked: seq<EnvEntry>, q: EnvEntry, r: EnvEntry)
    requires SameNameSameValue(asked)
    ensures q in asked && r in asked && q.ev.name == r.ev.name ==> q.ev.value == r.ev.value
  {
  }

  lemma {:induction false} NamesApartPair(jobs: seq<Job>, ports: seq<int32>, i: nat, j: nat, q: EnvEntry, r: EnvEntry)
    requires |jobs| == |ports| && i < |jobs| && j < |jobs| && Distinct(jobs)
    requires EnvNamesApart(Elements(jobs))
    requires q in VarsOf(jobs[i], ports[i]) && r in VarsOf(jobs[j], ports[j]) && q.ev.name == r.ev.name
    ensures q.ev.value == r.ev.value
  {
    hide Decimal;
    assert jobs[i] in Elements(jobs) && jobs[j] in Elements(jobs);
    assert i == j || jobs[i] != jobs[j];
    assert q == HostVar(jobs[i]) || q == PortVar(jobs[i], ports[i]);
    assert r == HostVar(jobs[j]) || r == PortVar(jobs[j], ports[j]);
  }

  // Whatever different ports the jobs get, the variables they ask for agree exactly when the
  // names of port variables are apart from all others.
  lemma {:induction false} AgreeIff(jobs: seq<Job>, ports: seq<int32>)
    requires |jobs| == |ports| && Distinct(jobs) && Distinct(ports)
    ensures Agree(EnvVarsIn(Asked(jobs, ports))) <==> EnvNamesApart(Elements(jobs))
  {
    var asked := Asked(jobs, ports);
    AgreeIsOrderFree(asked);
    if EnvNamesApart(Elements(jobs)) {
      forall q, r | q in asked && r in asked && q.ev.name == r.ev.name ensures q.ev.value == r.ev.value {
        AskedIff(jobs, ports, q);
        AskedIff(jobs, ports, r);
        var i :| 0 <= i < |jobs| && q in VarsOf(jobs[i], ports[i]);
        var j :| 0 <= j < |jobs| && r in VarsOf(jobs[j], ports[j]);
        hide EnvNamesApart, VarsOf;
        NamesApartPair(jobs, ports, i, j, q, r);
      }
    }
    if SameNameSameValue(asked) {
      hide SameNameSameValue, Asked, EnvVarsIn;
      forall p, q | p in jobs && q in jobs && p.inst.portEnvName != ""
        ensures p != q ==> p.inst.portEnvName != q.inst.portEnvName
        ensures p.inst.portEnvName != q.inst.hostEnvName
      {
        var i :| 0 <= i < |jobs| && jobs[i] == p;
        var j :| 0 <= j < |jobs| && jobs[j] == q;
        AgreeingNamesApart(jobs, ports, i, j);
        assert i < j || j < i || p == q;
      }
    }
  }

  // --- Whether a pod is configured ---------------------------------------------------------

  // A pod is configured without error exactly when no port request conflicts and no port
  // variable has the name of another variable.
  lemma {:induction false} ErrorFreeIff(containers: seq<ContainerSpec>, matches: seq<AuthProxyWorkload>)
    requires WellNamed(matches)
    ensures Final(containers, matches).errors == [] <==>
            && Run(StartState(AppClaims(containers)), Requests(Jobs(matches))).conflicts == 0
            && EnvNamesApart(Elements(Jobs(matches)))
  {
    hide Use, Register, NeverRewrites, Asked, DoJobs, EnvNamesApart, Jobs, AppClaims;
    var claims, jobs := AppClaims(containers), Jobs(matches);
    var run := Run(StartState(claims), Requests(jobs));
    NoErrorsIff(Start(containers), jobs);
    if run.conflicts == 0 {
      WellNamedKeysFresh(matches);
      FreshNeverRewrites(claims, Requests(jobs));
      OwnPorts(claims, Requests(jobs));
      JobsDistinct(jobs);
      AgreeIff(jobs, run.ports);
    }
  }

  lemma {:induction false} JobsDistinct(jobs: seq<Job>)
    requires FreshKeys(Requests(jobs))
    ensures Distinct(jobs)
  {
    forall i, j | 0 <= i < j < |jobs| ensures jobs[i] != jobs[j] {
      assert Requests(jobs)[i].key != Requests(jobs)[j].key;
    }
  }

  // Whether a pod is configured, decided before it: explicit ports are apart and have room,
  // and names of port variables are apart from all others.
  lemma {:induction false} ConfiguresIff(containers: seq<ContainerSpec>, matches: seq<AuthProxyWorkload>)
    requires WellNamed(matches) && CountersFit(AppClaims(containers), Requests(Jobs(matches)))
    ensures var claims, reqs := AppClaims(containers), Requests(Jobs(matches));
            Final(containers, matches).errors == [] <==>
            ExplicitPortsApart(claims, Elements(reqs)) && RoomInOrder(claims, reqs) && EnvNamesApart(Elements(Jobs(matches)))
  {
    WellNamedKeysFresh(matches);
    ErrorFreeIff(containers, matches);
    ConflictFreeIff(AppClaims(containers), Requests(Jobs(matches)));
  }

  // --- A connection string that occurs twice -----------------------------------------------

  function TcpInstance(connectionString: string, port: Option<int32>): Instance {
    Instance(connectionString, port, None, None, "", "")
  }

  // A resource with the given instances and defaults for everything else.
  function Resource(id: NamespacedName, instances: seq<Instance>): AuthProxyWorkload {
    AuthProxyWorkload(id, false, WorkloadSelector("", "", Absent), None, instances)
  }

  lemma {:induction false} QuietInstances(id: NamespacedName, instances: seq<Instance>)
    requires forall i :: 0 <= i < |instances| ==> instances[i].hostEnvName == "" && instances[i].portEnvName == ""
    ensures var m := Resource(id, instances);
            Final([], [m]).errors == [] <==> Run(StartState([]), Requests(JobsOf(m))).conflicts == 0
  {
    var m := Resource(id, instances);
    assert AppClaims([]) == [];
    assert [m][..0] == [];
    assert Jobs([]) + JobsOf(m) == JobsOf(m);
    NothingAsked(JobsOf(m), Run(StartState([]), Requests(JobsOf(m))).ports);
    NoErrorsIff(Start([]), JobsOf(m));
  }

  // WellNamed is needed: a resource that names one connection string twice, with different
  // ports, lets a third instance have the first port, and no error is reported.
  lemma {:induction false} RepeatedInstanceSharesAPort(id: NamespacedName, x: string, y: string, p: int32, q: int32)
    requires id.name != "" && x != y && p != q
    ensures var m := Resource(id, [TcpInstance(x, Some(p)), TcpInstance(x, Some(q)), TcpInstance(y, Some(p))]);
            && Final([], [m]).errors == []
            && PortOf([], [m], 0, 0) == p && PortOf([], [m], 0, 1) == q && PortOf([], [m], 0, 2) == p
  {
    var instances := [TcpInstance(x, Some(p)), TcpInstance(x, Some(q)), TcpInstance(y, Some(p))];
    hide Run, Use, Final, PortOf, Requests;
    RepeatedRequests(id, x, y, p, q, instances);
    RewriteSharesAPort(InstanceKey(id, x), InstanceKey(id, y), p, q);
    RunsInto(id, instances, [p, q, p]);
  }

  lemma {:induction false} RepeatedRequests(id: NamespacedName, x: string, y: string, p: int32, q: int32, instances: seq<Instance>)
    requires instances == [TcpInstance(x, Some(p)), TcpInstance(x, Some(q)), TcpInstance(y, Some(p))]
    ensures Requests(JobsOf(Resource(id, instances))) ==
            [Request(InstanceKey(id, x), Some(p)), Request(InstanceKey(id, x), Some(q)), Request(InstanceKey(id, y), Some(p))]
  {
  }

  // A pod with this resource alone: no error, and the ports of the run.
  lemma {:induction false} RunsInto(id: NamespacedName, instances: seq<Instance>, ports: seq<int32>)
    requires forall i :: 0 <= i < |instances| ==> instances[i].hostEnvName == "" && instances[i].portEnvName == ""
    requires var run := Run(StartState([]), Requests(JobsOf(Resource(id, instances)))); run.conflicts == 0 && run.ports == ports
    ensures var m := Resource(id, instances);
            && |ports| == |instances|
            && Final([], [m]).errors == []
            && forall d :: 0 <= d < |instances| ==> PortOf([], [m], 0, d) == ports[d]
  {
    var m := Resource(id, instances);
    QuietInstances(id, instances);
    hide Run, Use, Final, PortOf;
    assert AppClaims([]) == [];
    forall d | 0 <= d < |instances| ensures PortOf([], [m], 0, d) == ports[d] {
      PortOfOnly([], m, d);
    }
  }

  lemma {:induction false} NothingAsked(jobs: seq<Job>, ports: seq<int32>)
    requires |jobs| == |ports|
    requires forall i :: 0 <= i < |jobs| ==> jobs[i].inst.hostEnvName == "" && jobs[i].inst.portEnvName == ""
    ensures Asked(jobs, ports) == []
  {
    if jobs != [] {
      NothingAsked(jobs[..|jobs| - 1], ports[..|jobs| - 1]);
    }
  }

  // --- What the errors say -----------------------------------------------------------------

  // The i-th port request of a run conflicts.
  ghost predicate ConflictsAt(s: PortState, jobs: seq<Job>, i: nat) {
    i < |jobs| && Use(Run(s, Requests(jobs[..i])).state, PortRequest(jobs[i])).conflict
  }

  // The error names port, instance and resource of that request.
  ghost predicate SaysPortConflict(e: ErrorDetail, job: Job, port: int32) {
    && e.code == PortConflict && e.workload == job.workload
    && e.description == "proxy port " + Decimal(port) + " for instance " + job.inst.connectionString + " is already in use"
  }

  // The error names a variable that the job asks for, and the resource.
  ghost predicate SaysEnvConflict(e: ErrorDetail, job: Job) {
    && e.code == EnvVarConflict && e.workload == job.workload
    && (e.description == "environment variable named " + job.inst.hostEnvName + " already exists" ||
        e.description == "environment variable named " + job.inst.portEnvName + " already exists")
  }

  ghost predicate JustifiedBy(e: ErrorDetail, s: State, jobs: seq<Job>, i: nat) {
    && i < |jobs|
    && ((ConflictsAt(s.ports, jobs, i) && SaysPortConflict(e, jobs[i], JobPort(DoJobs(s, jobs[..i]), jobs[i]))) ||
        SaysEnvConflict(e, jobs[i]))
  }

  lemma {:induction false} DoJobErrors(s: State, job: Job, e: ErrorDetail)
    ensures e in DoJob(s, job).errors ==>
              || e in s.errors
              || (Use(s.ports, PortRequest(job)).conflict && SaysPortConflict(e, job, JobPort(s, job)))
              || SaysEnvConflict(e, job)
    ensures e in s.errors ==> e in DoJob(s, job).errors
    ensures Use(s.ports, PortRequest(job)).conflict ==> PortError(job, JobPort(s, job)) in DoJob(s, job).errors
  {
    hide Use, AddEnv, Decimal;
  }

  // Every error is about some instance: a conflict of the port it was to get, or of a variable
  // that it asks for; the text and the resource are that instance's.
  lemma {:induction false} ErrorsJustified(s: State, jobs: seq<Job>, e: ErrorDetail) returns (i: nat)
    requires s.errors == [] && e in DoJobs(s, jobs).errors
    ensures JustifiedBy(e, s, jobs, i)
  {
    var n := |jobs| - 1;
    var rest, before := jobs[..n], DoJobs(s, jobs[..n]);
    DoJobErrors(before, jobs[n], e);
    PortProjection(s, rest);
    if e in before.errors {
      i := ErrorsJustified(s, rest, e);
      assert rest[..i] == jobs[..i];
    } else {
      i := n;
    }
  }

  lemma {:induction false} PortErrorSays(job: Job, port: int32)
    ensures SaysPortConflict(PortError(job, port), job, port)
  {
    hide Decimal;
  }

  // And every conflict of a port is reported so.
  lemma {:induction false} PortConflictsReported(s: State, jobs: seq<Job>, i: nat) returns (e: ErrorDetail)
    requires ConflictsAt(s.ports, jobs, i)
    ensures e in DoJobs(s, jobs).errors && SaysPortConflict(e, jobs[i], JobPort(DoJobs(s, jobs[..i]), jobs[i]))
  {
    var n := |jobs| - 1;
    var before := DoJobs(s, jobs[..n]);
    DoJobErrors(before, jobs[n], PortError(jobs[n], JobPort(before, jobs[n])));
    PortErrorSays(jobs[n], JobPort(before, jobs[n]));
    hide Use, Run, DoJob, SaysPortConflict, SaysEnvConflict, JobPort, PortError;
    if i == n {
      e := PortError(jobs[n], JobPort(before, jobs[n]));
      PortProjection(s, jobs[..n]);
    } else {
      assert jobs[..n][..i] == jobs[..i];
      e := PortConflictsReported(s, jobs[..n], i);
    }
    DoJobErrors(before, jobs[n], e);
  }
}
