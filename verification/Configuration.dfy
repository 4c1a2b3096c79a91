// What configuring one pod computes, as functions on values: the specification that the
// methods of class UpdateState are proved against.
module Configuration {
  import opened Prelude
  import opened Numerals
  import opened PortTable
  import opened PortRuns
  import opened EnvVars
  import opened InstanceArgs
  import opened Api
  import Names

  const DEFAULT_PROXY_IMAGE := "gcr.io/cloud-sql-connectors/cloud-sql-proxy:2.0.0-preview.4"
  const DEFAULT_RESOURCES := "requests: cpu 1.0, memory 2Gi"
  const LOCALHOST := "127.0.0.1"

  datatype State = State(ports: PortState, env: seq<EnvEntry>, errors: seq<ErrorDetail>)

  // One instance of one matching AuthProxyWorkload.
  datatype Job = Job(workload: NamespacedName, inst: Instance)

  function KeyOf(job: Job): InstanceKey {
    InstanceKey(job.workload, job.inst.connectionString)
  }

  function PortRequest(job: Job): Request {
    Request(KeyOf(job), job.inst.port)
  }

  function PortError(job: Job, port: int32): ErrorDetail {
    ErrorDetail(PortConflict,
                "proxy port " + Decimal(port) + " for instance " + job.inst.connectionString + " is already in use",
                job.workload)
  }

  function EnvError(job: Job, name: string): ErrorDetail {
    ErrorDetail(EnvVarConflict, "environment variable named " + name + " already exists", job.workload)
  }

  function JobPort(s: State, job: Job): int32 {
    Use(s.ports, PortRequest(job)).port
  }

  function UsePort(s: State, job: Job): State {
    var g := Use(s.ports, PortRequest(job));
    s.(ports := g.state, errors := s.errors + if g.conflict then [PortError(job, g.port)] else [])
  }

  function AddVar(s: State, job: Job, ev: EnvVar): State {
    var (entries, conflict) := AddEnv(s.env, KeyOf(job), ev);
    s.(env := entries, errors := s.errors + if conflict then [EnvError(job, ev.name)] else [])
  }

  function AddHostVar(s: State, job: Job): State {
    if job.inst.hostEnvName == "" then s else AddVar(s, job, Plain(job.inst.hostEnvName, LOCALHOST))
  }

  function AddPortVar(s: State, job: Job, port: int32): State {
    if job.inst.portEnvName == "" then s else AddVar(s, job, Plain(job.inst.portEnvName, Decimal(port)))
  }

  function DoJob(s: State, job: Job): State {
    AddPortVar(AddHostVar(UsePort(s, job), job), job, JobPort(s, job))
  }

  function DoJobs(s: State, jobs: seq<Job>): State {
    if jobs == [] then s else DoJob(DoJobs(s, jobs[..|jobs| - 1]), jobs[|jobs| - 1])
  }

  // --- Proxy containers --------------------------------------------------------------------

  function JobsOf(p: AuthProxyWorkload): (jobs: seq<Job>)
    ensures |jobs| == if p.Overridden() then 0 else |p.instances|
    ensures forall i :: 0 <= i < |jobs| ==> jobs[i] == Job(p.id, p.instances[i])
  {
    if p.Overridden() then []
    else seq(|p.instances|, i requires 0 <= i < |p.instances| => Job(p.id, p.instances[i]))
  }

  function Jobs(matches: seq<AuthProxyWorkload>): seq<Job> {
    if matches == [] then [] else Jobs(matches[..|matches| - 1]) + JobsOf(matches[|matches| - 1])
  }

  function HealthArgs(port: int32): seq<string> {
    ["--http-port=" + Decimal(port), "--http-address=0.0.0.0", "--health-check", "--structured-logs"]
  }

  function OptionalFlag(flag: string, value: Option<int>): seq<string> {
    if value.Some? && value.value != 0 then [flag + Decimal(value.value)] else []
  }

  function SettingsArgs(settings: Option<ProxySettings>): seq<string> {
    if settings == None then []
    else
      (if settings.value.sqlAdminAPIEndpoint != "" then
         ["--sqladmin-api-endpoint=" + settings.value.sqlAdminAPIEndpoint]
       else [])
      + OptionalFlag("--max-connections=", settings.value.maxConnections)
      + OptionalFlag("--max-sigterm-delay=", settings.value.maxSigtermDelay)
  }

  function ImageFor(settings: Option<ProxySettings>): string {
    if settings.Some? && settings.value.image != "" then settings.value.image else DEFAULT_PROXY_IMAGE
  }

  function ResourcesFor(settings: Option<ProxySettings>): string {
    if settings.Some? && settings.value.resources.Some? then settings.value.resources.value else DEFAULT_RESOURCES
  }

  // The arguments of the jobs, each with the port it gets in its turn.
  function JobArgs(s: State, jobs: seq<Job>): (args: seq<string>)
    ensures |args| == |jobs|
    ensures forall i :: 0 <= i < |jobs| ==>
              args[i] == InstanceArg(jobs[i].inst, JobPort(DoJobs(s, jobs[..i]), jobs[i]))
  {
    seq(|jobs|, i requires 0 <= i < |jobs| => InstanceArg(jobs[i].inst, JobPort(DoJobs(s, jobs[..i]), jobs[i])))
  }

  function ProxyContainer(s: State, p: AuthProxyWorkload, userAgent: string): ContainerSpec {
    if p.Overridden() then
      p.settings.value.container.value.(name := Names.ContainerName(p.id))
    else
      var health := HealthPort(s.ports.entries);
      ContainerSpec(
        Names.ContainerName(p.id), ImageFor(p.settings), ResourcesFor(p.settings),
        HealthArgs(health) + ["--user-agent=" + userAgent] + SettingsArgs(p.settings) + JobArgs(s, JobsOf(p)),
        [], [], Some(health))
  }

  // One container a match, each built in the state that the matches before it leave.
  function Proxies(s: State, matches: seq<AuthProxyWorkload>, userAgent: string): (cs: seq<ContainerSpec>)
    ensures |cs| == |matches|
    ensures forall i :: 0 <= i < |matches| ==>
              cs[i] == ProxyContainer(DoJobs(s, Jobs(matches[..i])), matches[i], userAgent)
  {
    seq(|matches|, i requires 0 <= i < |matches| =>
      ProxyContainer(DoJobs(s, Jobs(matches[..i])), matches[i], userAgent))
  }

  // --- The whole pod -----------------------------------------------------------------------

  predicate IsProxyName(name: string) {
    Names.CONTAINER_PREFIX <= name
  }

  function ClaimsOf(c: ContainerSpec): (claims: seq<Claim>)
    ensures |claims| == if IsProxyName(c.name) then 0 else |c.ports|
    ensures forall i :: 0 <= i < |claims| ==> claims[i] == Claim(c.name, c.ports[i])
  {
    if IsProxyName(c.name) then []
    else seq(|c.ports|, i requires 0 <= i < |c.ports| => Claim(c.name, c.ports[i]))
  }

  // The ports of the containers that are not proxies, in order.
  function AppClaims(containers: seq<ContainerSpec>): seq<Claim> {
    if containers == [] then []
    else AppClaims(containers[..|containers| - 1]) + ClaimsOf(containers[|containers| - 1])
  }

  function Start(containers: seq<ContainerSpec>): State {
    State(StartState(AppClaims(containers)), [], [])
  }

  function Final(containers: seq<ContainerSpec>, matches: seq<AuthProxyWorkload>): State {
    DoJobs(Start(containers), Jobs(matches))
  }

  function WithEnv(c: ContainerSpec, s: State): ContainerSpec {
    c.(env := Override(c.env, EnvVarsIn(s.env)))
  }

  function Configured(containers: seq<ContainerSpec>, matches: seq<AuthProxyWorkload>, userAgent: string): (cs: seq<ContainerSpec>)
    ensures |cs| == |containers| + |matches|
    ensures forall i :: 0 <= i < |cs| ==>
              cs[i] == WithEnv((containers + Proxies(Start(containers), matches, userAgent))[i], Final(containers, matches))
  {
    var all := containers + Proxies(Start(containers), matches, userAgent);
    seq(|all|, i requires 0 <= i < |all| => WithEnv(all[i], Final(containers, matches)))
  }
}
