// The sidecar configurator: updateState, its heap-allocated tables, and the containers that it
// changes in place.
module UpdateState {
  import opened Prelude
  import opened PortTable
  import opened PortRuns
  import opened EnvVars
  import opened InstanceArgs
  import opened Api
  import opened Configuration
  import opened PodGuarantees
  import Names
  import Numerals

  class ManagedPort {
    const instance: InstanceKey
    var port: int32
    var originalValues: map<string, int32>

    constructor (instance: InstanceKey, port: int32)
      ensures View() == PortEntry(instance, port, map[])
    {
      this.instance, this.port, this.originalValues := instance, port, map[];
    }

    ghost function View(): PortEntry
      reads this
    {
      PortEntry(instance, port, originalValues)
    }
  }

  class ManagedEnvVar {
    const instance: InstanceKey
    var operatorManagedValue: EnvVar

    constructor (instance: InstanceKey, ev: EnvVar)
      ensures View() == EnvEntry(instance, ev)
    {
      this.instance, this.operatorManagedValue := instance, ev;
    }

    ghost function View(): EnvEntry
      reads this
    {
      EnvEntry(instance, operatorManagedValue)
    }
  }

  class Container {
    var name: string
    var image: string
    var resources: string
    var args: seq<string>
    var env: seq<EnvVar>
    var ports: seq<int32>
    var probePort: Option<int32>

    constructor ()
      ensures View() == ContainerSpec("", "", "", [], [], [], None)
    {
      name, image, resources, args, env, ports, probePort := "", "", "", [], [], [], None;
    }

    method CopyFrom(c: ContainerSpec)
      modifies this
      ensures View() == c
    {
      name, image, resources, args, env, ports, probePort :=
        c.name, c.image, c.resources, c.args, c.env, c.ports, c.probePort;
    }

    ghost function View(): ContainerSpec
      reads this
    {
      ContainerSpec(name, image, resources, args, env, ports, probePort)
    }
  }

  ghost function Views(cs: seq<Container>): (views: seq<ContainerSpec>)
    reads cs
    ensures |views| == |cs|
    ensures forall i :: 0 <= i < |cs| ==> views[i] == cs[i].View()
  {
    seq(|cs|, i requires 0 <= i < |cs| reads cs => cs[i].View())
  }

  class PodWorkload {
    const meta: ObjectMeta
    var containers: seq<Container>

    constructor (meta: ObjectMeta, containers: seq<Container>)
      ensures this.meta == meta && this.containers == containers
    {
      this.meta, this.containers := meta, containers;
    }

    // The containers of a pod spec are separate values.
    ghost predicate Valid()
      reads this
    {
      Distinct(containers)
    }
  }

  // p++ on an int32, where p is k increments from start.
  function Increment(p: int32, ghost start: int32, ghost k: nat): (r: int32)
    requires p == Hop(start, k)
    ensures r == Hop(start, k + 1)
  {
    HopNext(start, k);
    if p == MAX_INT32 then MIN_INT32 else p + 1
  }

  class UpdateState {
    var ports: seq<ManagedPort>
    var envVars: seq<ManagedEnvVar>
    var nextDBPort: int32
    var details: seq<ErrorDetail>
    const userAgent: string

    constructor (userAgent: string)
      ensures Valid() && ports == [] && envVars == []
      ensures View() == State(PortState([], FIRST_DB_PORT), [], [])
      ensures this.userAgent == userAgent
    {
      ports, envVars := [], [];
      nextDBPort := FIRST_DB_PORT;
      details := [];
      this.userAgent := userAgent;
    }

    ghost predicate Valid()
      reads this
    {
      Distinct(ports) && Distinct(envVars)
    }

    ghost function Entries(): (entries: seq<PortEntry>)
      reads this, ports
      ensures |entries| == |ports|
      ensures forall i :: 0 <= i < |ports| ==> entries[i] == ports[i].View()
    {
      seq(|ports|, i requires 0 <= i < |ports| reads this, ports => ports[i].View())
    }

    ghost function EnvTable(): (entries: seq<EnvEntry>)
      reads this, envVars
      ensures |entries| == |envVars|
      ensures forall i :: 0 <= i < |envVars| ==> entries[i] == envVars[i].View()
    {
      seq(|envVars|, i requires 0 <= i < |envVars| reads this, envVars => envVars[i].View())
    }

    ghost function View(): State
      reads this, ports, envVars
    {
      State(PortState(Entries(), nextDBPort), EnvTable(), details)
    }

    method AddError(detail: ErrorDetail)
      modifies this`details
      ensures details == old(details) + [detail]
    {
      details := details + [detail];
    }

    method IsPortInUse(p: int32) returns (inUse: bool)
      ensures inUse <==> p in PortsOf(Entries())
    {
      for i := 0 to |ports|
        invariant forall j :: 0 <= j < i ==> ports[j].port != p
      {
        if p == ports[i].port {
          assert Entries()[i] in Entries();
          return true;
        }
      }
      assert forall j :: 0 <= j < |ports| ==> Entries()[j].port != p;
      return false;
    }

    method FindPort(p: int32) returns (at: nat)
      ensures at == PortIndex(Entries(), p)
    {
      at := |ports|;
      for i := 0 to |ports|
        invariant at == |ports| || (at < i && ports[at].port == p)
        invariant forall j :: (if at == |ports| then 0 else at + 1) <= j < i ==> ports[j].port != p
      {
        if ports[i].port == p {
          at := i;
        }
      }
      FoundLast(Entries(), p, at);
    }

    method AddPort(p: int32, containerName: string, key: InstanceKey)
      requires Valid()
      modifies this`ports, ports
      ensures Valid() && envVars == old(envVars)
      ensures forall i :: 0 <= i < |ports| ==> ports[i] in old(ports) || fresh(ports[i])
      ensures forall i :: 0 <= i < |envVars| ==> envVars[i] in old(envVars) || fresh(envVars[i])
      ensures Entries() == PortTable.AddPort(old(Entries()), p, containerName, key)
    {
      var at := FindPort(p);
      if at == |ports| {
        var mp := new ManagedPort(key, p);
        ports := ports + [mp];
      }
      label filed:
      assert Entries() == if at == old(|ports|) then old(Entries()) + [PortEntry(key, p, map[])] else old(Entries());
      if containerName != "" && !(Names.CONTAINER_PREFIX <= containerName) {
        ports[at].originalValues := ports[at].originalValues[containerName := p];
        assert Entries() == old@filed(Entries())[at := ports[at].View()];
      }
    }

    method AddInUsePort(p: int32, containerName: string)
      requires Valid()
      modifies this`ports, ports
      ensures Valid() && envVars == old(envVars)
      ensures forall i :: 0 <= i < |ports| ==> ports[i] in old(ports) || fresh(ports[i])
      ensures forall i :: 0 <= i < |envVars| ==> envVars[i] in old(envVars) || fresh(envVars[i])
      ensures Entries() == PortTable.AddPort(old(Entries()), p, containerName, NO_INSTANCE)
    {
      AddPort(p, containerName, NO_INSTANCE);
    }

    // Advance nextDBPort to a free port; the loop ends because not every int32 is taken.
    method SeekPort()
      requires |ports| < INT32_VALUES
      modifies this`nextDBPort
      ensures nextDBPort == FirstFree(PortsOf(Entries()), old(nextDBPort))
    {
      ghost var used, start, k: nat := PortsOf(Entries()), nextDBPort, 0;
      PortsOfSize(Entries());
      HopNext(start, 0);
      var inUse := IsPortInUse(nextDBPort);
      while inUse
        invariant nextDBPort == Hop(start, k) && AllUsed(used, start, k) && k <= |used|
        invariant ports == old(ports) && Entries() == old(Entries())
        invariant inUse <==> nextDBPort in used
        decreases |used| - k
      {
        StretchFits(used, start, k + 1);
        nextDBPort := Increment(nextDBPort, start, k);
        k := k + 1;
        inUse := IsPortInUse(nextDBPort);
      }
      FirstFreeUnique(used, start, k);
    }

    // Does a managedPort already exist for this instance?
    method FindManaged(key: InstanceKey) returns (i: nat)
      ensures i == KeyIndex(Entries(), key)
    {
      i := 0;
      while i < |ports| && ports[i].instance != key
        invariant i <= |ports|
        invariant forall j :: 0 <= j < i ==> ports[j].instance != key
      {
        i := i + 1;
      }
      FoundKey(Entries(), key, i);
    }

    method SetPort(i: nat, p: int32)
      requires Valid() && i < |ports|
      modifies ports[i]
      ensures Entries() == old(Entries())[i := old(Entries())[i].(port := p)]
    {
      ports[i].port := p;
    }

    // The instance has a port already: change it if another one is asked for.
    method UpdateManaged(i: nat, p: NamespacedName, inst: Instance) returns (port: int32)
      requires Valid() && i < |ports| && i == KeyIndex(Entries(), KeyOf(Job(p, inst)))
      modifies this`details, ports[i]
      ensures View() == UsePort(old(View()), Job(p, inst))
      ensures port == JobPort(old(View()), Job(p, inst))
    {
      UsePortHeld(View(), Job(p, inst), i);
      hide UsePort, JobPort, PortError, KeyIndex, KeyOf, PortsOf, EnvTable;
      if inst.port.Some? && ports[i].port != inst.port.value {
        var inUse := IsPortInUse(inst.port.value);
        if inUse {
          AddError(PortError(Job(p, inst), inst.port.value));
        }
        SetPort(i, inst.port.value);
      }
      return ports[i].port;
    }

    method ChoosePort(wanted: Option<int32>) returns (port: int32)
      requires |ports| < INT32_VALUES
      modifies this`nextDBPort
      ensures nextDBPort == if wanted.Some? then old(nextDBPort) else FirstFree(PortsOf(Entries()), old(nextDBPort))
      ensures port == if wanted.Some? then wanted.value else nextDBPort
    {
      if wanted.Some? {
        port := wanted.value;
      } else {
        SeekPort();
        port := nextDBPort;
      }
    }

    // A new instance: find it a port, and file it unless the port is taken.
    method AddManaged(job: Job) returns (port: int32)
      requires Valid() && |ports| < INT32_VALUES
      modifies this, ports
      ensures Valid() && envVars == old(envVars)
      ensures forall i :: 0 <= i < |ports| ==> ports[i] in old(ports) || fresh(ports[i])
      ensures forall i :: 0 <= i < |envVars| ==> envVars[i] in old(envVars) || fresh(envVars[i])
      ensures nextDBPort == if job.inst.port.Some? then old(nextDBPort) else FirstFree(PortsOf(old(Entries())), old(nextDBPort))
      ensures port == if job.inst.port.Some? then job.inst.port.value else nextDBPort
      ensures Entries() == PortTable.AddPort(old(Entries()), port, "", KeyOf(job))
      ensures details == old(details) + if port in PortsOf(old(Entries())) then [PortError(job, port)] else []
    {
      port := ChoosePort(job.inst.port);
      var inUse := IsPortInUse(port);
      assert Entries() == old(Entries());
      if inUse {
        AddError(PortError(job, port));
      }
      assert Entries() == old(Entries());
      AddPort(port, "", KeyOf(job));
    }

    method UseInstancePort(p: NamespacedName, inst: Instance) returns (port: int32)
      requires Valid() && |ports| < INT32_VALUES
      modifies this, ports
      ensures Valid() && envVars == old(envVars)
      ensures forall i :: 0 <= i < |ports| ==> ports[i] in old(ports) || fresh(ports[i])
      ensures View() == UsePort(old(View()), Job(p, inst))
      ensures port == JobPort(old(View()), Job(p, inst))
    {
      var i := FindManaged(KeyOf(Job(p, inst)));
      if i < |ports| {
        hide UsePort, JobPort, KeyIndex, KeyOf, Entries, EnvTable;
        port := UpdateManaged(i, p, inst);
      } else {
        UsePortNew(View(), Job(p, inst));
        hide UsePort, JobPort, PortTable.AddPort, PortError, FirstFree, KeyOf, KeyIndex;
        port := AddManaged(Job(p, inst));
      }
    }

    method ReplaceManaged(i: nat, job: Job, ev: EnvVar)
      requires Valid() && i < |envVars| && i == NameIndex(EnvTable(), ev.name)
      modifies this`details, envVars[i]
      ensures View() == AddVar(old(View()), job, ev)
    {
      var before := envVars[i].operatorManagedValue;
      envVars[i].operatorManagedValue := ev;
      assert EnvTable() == old(EnvTable())[i := old(EnvTable())[i].(ev := ev)];
      if before.value != ev.value {
        AddError(EnvError(job, ev.name));
      }
    }

    method AddWorkloadEnvVar(p: NamespacedName, inst: Instance, ev: EnvVar)
      requires Valid()
      modifies this, envVars
      ensures Valid() && ports == old(ports)
      ensures forall i :: 0 <= i < |envVars| ==> envVars[i] in old(envVars) || fresh(envVars[i])
      ensures View() == AddVar(old(View()), Job(p, inst), ev)
    {
      var job := Job(p, inst);
      for i := 0 to |envVars|
        invariant forall j :: 0 <= j < i ==> envVars[j].operatorManagedValue.name != ev.name
      {
        if envVars[i].operatorManagedValue.name == ev.name {
          FoundName(EnvTable(), ev.name, i);
          ReplaceManaged(i, job, ev);
          return;
        }
      }
      FoundName(EnvTable(), ev.name, |envVars|);
      var added := new ManagedEnvVar(KeyOf(job), ev);
      envVars := envVars + [added];
      assert EnvTable() == old(EnvTable()) + [EnvEntry(KeyOf(job), ev)];
    }

    // The first unregistered port from 9801 on; it is not registered itself.
    method FindHealthPort() returns (port: int32)
      requires |ports| < INT32_VALUES
      ensures port == HealthPort(Entries())
    {
      port := HEALTH_CHECK_PORT;
      ghost var used, k: nat := PortsOf(Entries()), 0;
      PortsOfSize(Entries());
      HopNext(port, 0);
      var inUse := IsPortInUse(port);
      while inUse
        invariant port == Hop(HEALTH_CHECK_PORT, k) && AllUsed(used, HEALTH_CHECK_PORT, k) && k <= |used|
        invariant inUse <==> port in used
        decreases |used| - k
      {
        StretchFits(used, HEALTH_CHECK_PORT, k + 1);
        port := Increment(port, HEALTH_CHECK_PORT, k);
        k := k + 1;
        inUse := IsPortInUse(port);
      }
      FirstFreeUnique(used, HEALTH_CHECK_PORT, k);
    }

    method AddHealthCheck(c: Container, cliArgs: seq<string>) returns (args: seq<string>)
      requires |ports| < INT32_VALUES
      modifies c`probePort
      ensures c.probePort == Some(HealthPort(Entries()))
      ensures args == cliArgs + HealthArgs(HealthPort(Entries()))
    {
      var port := FindHealthPort();
      c.probePort := Some(port);
      args := cliArgs + HealthArgs(port);
    }

    method ApplyContainerSpec(p: AuthProxyWorkload, c: Container, cliArgs: seq<string>) returns (args: seq<string>)
      modifies c`image, c`resources
      ensures c.image == ImageFor(p.settings) && c.resources == ResourcesFor(p.settings)
      ensures args == cliArgs + SettingsArgs(p.settings)
    {
      c.image := DEFAULT_PROXY_IMAGE;
      c.resources := DEFAULT_RESOURCES;
      args := cliArgs;
      if p.settings == None {
        return;
      }
      var settings := p.settings.value;
      if settings.image != "" {
        c.image := settings.image;
      }
      if settings.resources.Some? {
        c.resources := settings.resources.value;
      }
      if settings.sqlAdminAPIEndpoint != "" {
        args := args + ["--sqladmin-api-endpoint=" + settings.sqlAdminAPIEndpoint];
      }
      if settings.maxConnections.Some? && settings.maxConnections.value != 0 {
        args := args + ["--max-connections=" + Numerals.Decimal(settings.maxConnections.value)];
      }
      if settings.maxSigtermDelay.Some? && settings.maxSigtermDelay.value != 0 {
        args := args + ["--max-sigterm-delay=" + Numerals.Decimal(settings.maxSigtermDelay.value)];
      }
    }

    // One instance: its port, its variables, its argument.
    method UpdateInstance(p: NamespacedName, inst: Instance) returns (arg: string)
      requires Valid() && |ports| < INT32_VALUES
      modifies this, ports, envVars
      ensures Valid()
      ensures forall i :: 0 <= i < |ports| ==> ports[i] in old(ports) || fresh(ports[i])
      ensures forall i :: 0 <= i < |envVars| ==> envVars[i] in old(envVars) || fresh(envVars[i])
      ensures View() == DoJob(old(View()), Job(p, inst))
      ensures arg == InstanceArg(inst, JobPort(old(View()), Job(p, inst)))
      ensures |ports| <= old(|ports|) + 1
    {
      UsePortSize(View(), Job(p, inst));
      hide UsePort, JobPort, AddVar, InstanceArg, KeyOf, Numerals.Decimal;
      var port := UseInstancePort(p, inst);
      if inst.hostEnvName != "" {
        AddWorkloadEnvVar(p, inst, Plain(inst.hostEnvName, LOCALHOST));
      }
      if inst.portEnvName != "" {
        AddWorkloadEnvVar(p, inst, Plain(inst.portEnvName, Numerals.Decimal(port)));
      }
      arg := FormatInstance(inst, port);
    }

    method UpdateInstances(p: AuthProxyWorkload) returns (args: seq<string>)
      requires Valid() && |ports| + |p.instances| < INT32_VALUES && !p.Overridden()
      modifies this, ports, envVars
      ensures Valid()
      ensures forall i :: 0 <= i < |ports| ==> ports[i] in old(ports) || fresh(ports[i])
      ensures forall i :: 0 <= i < |envVars| ==> envVars[i] in old(envVars) || fresh(envVars[i])
      ensures View() == DoJobs(old(View()), JobsOf(p))
      ensures args == JobArgs(old(View()), JobsOf(p))
      ensures |ports| <= old(|ports|) + |p.instances|
    {
      hide DoJob, DoJobs, JobPort, InstanceArg, View, Entries, EnvTable;
      ghost var start, jobs := View(), JobsOf(p);
      ghost var expected := JobArgs(start, jobs);
      NoJobs(start, jobs);
      args := [];
      for i := 0 to |p.instances|
        invariant Valid()
        invariant forall i :: 0 <= i < |ports| ==> ports[i] in old(ports) || fresh(ports[i])
        invariant forall i :: 0 <= i < |envVars| ==> envVars[i] in old(envVars) || fresh(envVars[i])
        invariant View() == DoJobs(start, jobs[..i])
        invariant args == expected[..i]
        invariant |ports| <= old(|ports|) + i
      {
        JobStep(start, jobs, i);
        var arg := UpdateInstance(p.id, p.instances[i]);
        assert arg == expected[i];
        args := args + [arg];
      }
      assert jobs[..|jobs|] == jobs;
    }

    // Everything but the instances' arguments.
    method StartContainer(p: AuthProxyWorkload, c: Container) returns (args: seq<string>)
      requires |ports| < INT32_VALUES
      requires c.View() == ContainerSpec("", "", "", [], [], [], None)
      modifies c
      ensures c.View() == ContainerSpec(Names.ContainerName(p.id), ImageFor(p.settings), ResourcesFor(p.settings),
                                        [], [], [], Some(HealthPort(Entries())))
      ensures args == HealthArgs(HealthPort(Entries())) + ["--user-agent=" + userAgent] + SettingsArgs(p.settings)
    {
      hide HealthPort, HealthArgs, SettingsArgs, ImageFor, ResourcesFor, Names.ContainerName;
      args := AddHealthCheck(c, []);
      args := args + ["--user-agent=" + userAgent];
      c.name := Names.ContainerName(p.id);
      args := ApplyContainerSpec(p, c, args);
    }

    // The container of a match whose container was not overridden.
    method BuildContainer(p: AuthProxyWorkload, c: Container)
      requires Valid() && |ports| + |p.instances| < INT32_VALUES && !p.Overridden()
      requires c.View() == ContainerSpec("", "", "", [], [], [], None)
      modifies this, ports, envVars, c
      ensures Valid()
      ensures forall i :: 0 <= i < |ports| ==> ports[i] in old(ports) || fresh(ports[i])
      ensures forall i :: 0 <= i < |envVars| ==> envVars[i] in old(envVars) || fresh(envVars[i])
      ensures View() == DoJobs(old(View()), JobsOf(p))
      ensures c.View() == ProxyContainer(old(View()), p, userAgent)
      ensures |ports| <= old(|ports|) + |p.instances|
    {
      hide HealthPort, HealthArgs, SettingsArgs, ImageFor, ResourcesFor, DoJobs, JobArgs, Names.ContainerName;
      ghost var start := View();
      var cliArgs := StartContainer(p, c);
      assert View() == start;
      var instArgs := UpdateInstances(p);
      c.args := cliArgs + instArgs;
    }

    method UpdateContainer(p: AuthProxyWorkload, c: Container)
      requires Valid() && |ports| + |JobsOf(p)| < INT32_VALUES
      requires c.View() == ContainerSpec("", "", "", [], [], [], None)
      modifies this, ports, envVars, c
      ensures Valid()
      ensures forall i :: 0 <= i < |ports| ==> ports[i] in old(ports) || fresh(ports[i])
      ensures forall i :: 0 <= i < |envVars| ==> envVars[i] in old(envVars) || fresh(envVars[i])
      ensures View() == DoJobs(old(View()), JobsOf(p))
      ensures c.View() == ProxyContainer(old(View()), p, userAgent)
      ensures |ports| <= old(|ports|) + |JobsOf(p)|
    {
      if p.Overridden() {
        OverriddenHasNoJobs(View(), p, userAgent);
        hide DoJobs, ProxyContainer, Names.ContainerName;
        c.CopyFrom(p.settings.value.container.value);
        c.name := Names.ContainerName(p.id);
      } else {
        hide DoJobs, ProxyContainer;
        BuildContainer(p, c);
      }
    }

    // Env entries that name an operator variable are overwritten in place.
    method UpdateContainerEnv(c: Container)
      modifies c`env
      ensures c.env == Override(old(c.env), EnvVarsIn(EnvTable()))
    {
      ghost var table := EnvVarsIn(EnvTable());
      for i := 0 to |envVars|
        invariant c.env == Override(old(c.env), table[..i])
      {
        var operatorEnv := envVars[i].operatorManagedValue;
        assert table[..i + 1] == table[..i] + [operatorEnv];
        var found := ReplaceEnv(c, operatorEnv);
        if !found {
          c.env := c.env + [operatorEnv];
        }
      }
      assert table[..|table|] == table;
    }

    method RegisterAppPorts(apps: seq<Container>)
      requires Valid() && ports == []
      requires forall i :: 0 <= i < |apps| ==> !IsProxyName(apps[i].name)
      modifies this`ports
      ensures Valid() && Entries() == Register(AppClaims(Views(apps)))
      ensures forall i :: 0 <= i < |ports| ==> fresh(ports[i])
    {
      hide AppClaims, Register, PortTable.AddPort;
      ghost var views := Views(apps);
      NoClaims();
      assert views[..0] == [];
      for i := 0 to |apps|
        invariant Valid() && Entries() == Register(AppClaims(views[..i]))
        invariant forall k :: 0 <= k < |ports| ==> fresh(ports[k])
      {
        AppClaimsStep(views, i);
        RegisterContainer(apps[i], AppClaims(views[..i]));
      }
      assert views[..|views|] == views;
    }

    method RegisterContainer(c: Container, ghost before: seq<Claim>)
      requires Valid() && Entries() == Register(before) && !IsProxyName(c.name)
      modifies this`ports, ports
      ensures Valid() && Entries() == Register(before + ClaimsOf(c.View()))
      ensures forall i :: 0 <= i < |ports| ==> ports[i] in old(ports) || fresh(ports[i])
    {
      hide Register, PortTable.AddPort;
      ghost var own := ClaimsOf(c.View());
      assert before + own[..0] == before;
      for j := 0 to |c.ports|
        invariant Valid() && Entries() == Register(before + own[..j])
        invariant forall k :: 0 <= k < |ports| ==> ports[k] in old(ports) || fresh(ports[k])
      {
        RegisterMore(before, own, j);
        AddInUsePort(c.ports[j], c.name);
      }
      assert own[..|own|] == own;
    }

    method AddProxy(p: AuthProxyWorkload) returns (c: Container)
      requires Valid() && |ports| + |JobsOf(p)| < INT32_VALUES
      modifies this, ports, envVars
      ensures Valid()
      ensures forall i :: 0 <= i < |ports| ==> ports[i] in old(ports) || fresh(ports[i])
      ensures forall i :: 0 <= i < |envVars| ==> envVars[i] in old(envVars) || fresh(envVars[i])
      ensures View() == DoJobs(old(View()), JobsOf(p))
      ensures fresh(c) && c.View() == ProxyContainer(old(View()), p, userAgent)
      ensures |ports| <= old(|ports|) + |JobsOf(p)|
    {
      hide DoJobs, ProxyContainer, Entries, EnvTable;
      c := new Container();
      UpdateContainer(p, c);
    }

    method AddProxies(matches: seq<AuthProxyWorkload>) returns (added: seq<Container>)
      requires Valid() && |ports| + |Jobs(matches)| < INT32_VALUES
      modifies this, ports, envVars
      ensures Valid()
      ensures View() == DoJobs(old(View()), Jobs(matches))
      ensures Views(added) == Proxies(old(View()), matches, userAgent)
      ensures Distinct(added) && forall i :: 0 <= i < |added| ==> fresh(added[i])
    {
      hide DoJobs, Proxies, ProxyContainer, View, Entries, EnvTable, Jobs, JobsOf, Valid;
      ghost var start, expected := View(), Proxies(View(), matches, userAgent);
      added := [];
      StartJobs(start, matches);
      for i := 0 to |matches|
        invariant Valid()
        invariant forall k :: 0 <= k < |ports| ==> ports[k] in old(ports) || fresh(ports[k])
        invariant forall k :: 0 <= k < |envVars| ==> envVars[k] in old(envVars) || fresh(envVars[k])
        invariant View() == DoJobs(start, Jobs(matches[..i]))
        invariant |ports| <= old(|ports|) + |Jobs(matches[..i])|
        invariant Views(added) == expected[..i]
        invariant Distinct(added) && forall k :: 0 <= k < |added| ==> fresh(added[k])
      {
        JobsStep(start, matches, i);
        var newContainer := AddProxy(matches[i]);
        assert Views(added + [newContainer]) == Views(added) + [expected[i]];
        added := added + [newContainer];
      }
      assert matches[..|matches|] == matches;
    }

    method UpdateAllEnv(cs: seq<Container>)
      requires Distinct(cs)
      modifies cs
      ensures forall i :: 0 <= i < |cs| ==> cs[i].View() == WithEnv(old(cs[i].View()), View())
    {
      hide Override, Entries, EnvTable;
      ghost var final := View();
      for i := 0 to |cs|
        invariant View() == final
        invariant forall k :: 0 <= k < i ==> cs[k].View() == WithEnv(old(cs[k].View()), final)
        invariant forall k :: i <= k < |cs| ==> cs[k].View() == old(cs[k].View())
      {
        UpdateContainerEnv(cs[i]);
      }
    }

    method RegisterApp(containers: seq<Container>)
      requires Valid() && ports == [] && View() == State(PortState([], FIRST_DB_PORT), [], [])
      modifies this`ports
      ensures Valid() && View() == Start(Views(containers)) && |ports| <= |AppClaims(Views(containers))|
      ensures forall i :: 0 <= i < |ports| ==> fresh(ports[i])
    {
      hide AppClaims, Register;
      var apps := AppContainers(containers);
      RegisterAppPorts(apps);
      RunSizeFromStart(AppClaims(Views(containers)));
    }

    // Register the application's ports, then add one proxy container a match.
    method AddContainers(containers: seq<Container>, matches: seq<AuthProxyWorkload>) returns (all: seq<Container>)
      requires Valid() && ports == [] && View() == State(PortState([], FIRST_DB_PORT), [], [])
      requires Distinct(containers) && |AppClaims(Views(containers))| + |Jobs(matches)| < INT32_VALUES
      modifies this, ports, envVars
      ensures Valid() && View() == Final(old(Views(containers)), matches)
      ensures Views(all) == old(Views(containers)) + Proxies(Start(old(Views(containers))), matches, userAgent)
      ensures Distinct(all) && containers <= all
      ensures forall i :: |containers| <= i < |all| ==> fresh(all[i])
    {
      hide DoJobs, Proxies, View, Entries, EnvTable, AppClaims, Jobs, Start;
      RegisterApp(containers);
      var added := AddProxies(matches);
      all := containers + added;
      assert Views(all) == Views(containers) + Views(added);
    }

    // Configure the pod.  On error the pod keeps its container list; what its containers then
    // have in Env is not promised, because Env is overwritten in place before the check.
    method Update(wl: PodWorkload, matches: seq<AuthProxyWorkload>) returns (err: Option<seq<ErrorDetail>>)
      requires Valid() && ports == [] && View() == State(PortState([], FIRST_DB_PORT), [], [])
      requires wl.Valid() && |AppClaims(Views(wl.containers))| + |Jobs(matches)| < INT32_VALUES
      modifies this, ports, envVars, wl, wl.containers
      ensures wl.Valid()
      ensures var before := old(Views(wl.containers));
              && (err == None <==> Final(before, matches).errors == [])
              && (err == None ==> Views(wl.containers) == Configured(before, matches, userAgent) &&
                                  old(wl.containers) <= wl.containers)
              && (err != None ==> err.value == Final(before, matches).errors && wl.containers == old(wl.containers))
    {
      hide Final, Configured, Proxies, Entries, EnvTable, AppClaims, Jobs;
      ghost var before := Views(wl.containers);
      var containers := AddContainers(wl.containers, matches);
      label assembled:
      UpdateAllEnv(containers);
      ConfiguredIs(before, matches, userAgent, old@assembled(Views(containers)), Views(containers));
      if details != [] {
        return Some(details);
      }
      wl.containers := containers;
      return None;
    }
  }

  method ConfigureWorkload(wl: PodWorkload, matches: seq<AuthProxyWorkload>, userAgent: string) returns (err: Option<seq<ErrorDetail>>)
    requires wl.Valid() && |AppClaims(Views(wl.containers))| + |Jobs(matches)| < INT32_VALUES
    modifies wl, wl.containers
    ensures wl.Valid()
    ensures var before := old(Views(wl.containers));
            && (err == None <==> Final(before, matches).errors == [])
            && (err == None ==> Views(wl.containers) == Configured(before, matches, userAgent) &&
                                old(wl.containers) <= wl.containers)
            && (err != None ==> err.value == Final(before, matches).errors && wl.containers == old(wl.containers))
  {
    var state := new UpdateState(userAgent);
    err := state.Update(wl, matches);
  }

  lemma {:induction false} ConfiguredIs(before: seq<ContainerSpec>, matches: seq<AuthProxyWorkload>, userAgent: string,
                                        all: seq<ContainerSpec>, after: seq<ContainerSpec>)
    requires all == before + Proxies(Start(before), matches, userAgent) && |after| == |all|
    requires forall i :: 0 <= i < |all| ==> after[i] == WithEnv(all[i], Final(before, matches))
    ensures after == Configured(before, matches, userAgent)
  {
  }

  lemma {:induction false} RunSizeFromStart(claims: seq<Claim>)
    ensures |Register(claims)| <= |claims|
  {
    RegisterFacts(claims);
    ClaimedPortsSize(claims);
  }

  // The containers that this operator did not add.
  method AppContainers(containers: seq<Container>) returns (apps: seq<Container>)
    ensures AppClaims(Views(apps)) == AppClaims(Views(containers))
    ensures forall i :: 0 <= i < |apps| ==> !IsProxyName(apps[i].name)
  {
    hide AppClaims;
    apps := [];
    ghost var views := Views(containers);
    NoClaims();
    assert views[..0] == [] && Views(apps) == [];
    for i := 0 to |containers|
      invariant AppClaims(Views(apps)) == AppClaims(views[..i])
      invariant forall k :: 0 <= k < |apps| ==> !IsProxyName(apps[k].name)
    {
      AppClaimsStep(views, i);
      if !(Names.CONTAINER_PREFIX <= containers[i].name) {
        assert Views(apps + [containers[i]]) == Views(apps) + [views[i]];
        AppClaimsLast(Views(apps), views[i]);
        apps := apps + [containers[i]];
      }
    }
    assert views[..|views|] == views;
  }

  lemma {:induction false} NoClaims()
    ensures AppClaims([]) == [] && Register([]) == []
  {
  }

  lemma {:induction false} AppClaimsLast(views: seq<ContainerSpec>, c: ContainerSpec)
    ensures AppClaims(views + [c]) == AppClaims(views) + ClaimsOf(c)
  {
    assert (views + [c])[..|views|] == views;
  }

  lemma {:induction false} AppClaimsStep(views: seq<ContainerSpec>, i: nat)
    requires i < |views|
    ensures AppClaims(views[..i + 1]) == AppClaims(views[..i]) + ClaimsOf(views[i])
  {
    assert views[..i + 1] == views[..i] + [views[i]];
    AppClaimsLast(views[..i], views[i]);
  }

  lemma {:induction false} RegisterMore(before: seq<Claim>, own: seq<Claim>, j: nat)
    requires j < |own|
    ensures Register(before + own[..j + 1]) ==
            PortTable.AddPort(Register(before + own[..j]), own[j].port, own[j].container, NO_INSTANCE)
  {
    var more := before + own[..j + 1];
    assert more[..|more| - 1] == before + own[..j] && more[|more| - 1] == own[j];
  }

  lemma {:induction false} NoJobs(s: State, jobs: seq<Job>)
    ensures DoJobs(s, jobs[..0]) == s
  {
  }

  lemma {:induction false} JobStep(s: State, jobs: seq<Job>, i: nat)
    requires i < |jobs|
    ensures DoJobs(s, jobs[..i + 1]) == DoJob(DoJobs(s, jobs[..i]), jobs[i])
  {
    assert jobs[..i + 1][..i] == jobs[..i];
  }

  lemma {:induction false} StartJobs(s: State, matches: seq<AuthProxyWorkload>)
    ensures DoJobs(s, Jobs(matches[..0])) == s
  {
  }

  lemma {:induction false} JobsStep(s: State, matches: seq<AuthProxyWorkload>, i: nat)
    requires i < |matches|
    ensures Jobs(matches[..i + 1]) == Jobs(matches[..i]) + JobsOf(matches[i])
    ensures DoJobs(s, Jobs(matches[..i + 1])) == DoJobs(DoJobs(s, Jobs(matches[..i])), JobsOf(matches[i]))
    ensures |Jobs(matches[..i])| + |JobsOf(matches[i])| <= |Jobs(matches)|
  {
    assert matches[..i + 1][..i] == matches[..i];
    DoJobsAppend(s, Jobs(matches[..i]), JobsOf(matches[i]));
    BeforeIsPrefix(matches, i, |JobsOf(matches[i])|);
  }

  // The inner loop of updateContainerEnv.
  method ReplaceEnv(c: Container, operatorEnv: EnvVar) returns (found: bool)
    modifies c`env
    ensures found <==> Mentions(old(c.env), operatorEnv.name)
    ensures c.env == if found then ReplaceAll(old(c.env), operatorEnv) else old(c.env)
  {
    found := false;
    for j := 0 to |c.env|
      invariant |c.env| == |old(c.env)|
      invariant forall k :: 0 <= k < j ==>
                  c.env[k] == if old(c.env)[k].name == operatorEnv.name then operatorEnv else old(c.env)[k]
      invariant forall k :: j <= k < |c.env| ==> c.env[k] == old(c.env)[k]
      invariant found <==> exists k :: 0 <= k < j && old(c.env)[k].name == operatorEnv.name
    {
      if operatorEnv.name == c.env[j].name {
        found := true;
        c.env := c.env[j := operatorEnv];
      }
    }
  }

  lemma {:induction false} OverriddenHasNoJobs(s: State, p: AuthProxyWorkload, userAgent: string)
    requires p.Overridden()
    ensures DoJobs(s, JobsOf(p)) == s
    ensures ProxyContainer(s, p, userAgent) == p.settings.value.container.value.(name := Names.ContainerName(p.id))
  {
  }

  lemma {:induction false} UsePortSize(s: State, job: Job)
    ensures |UsePort(s, job).ports.entries| <= |s.ports.entries| + 1
  {
  }

  lemma {:induction false} UsePortHeld(s: State, job: Job, i: nat)
    requires i == KeyIndex(s.ports.entries, KeyOf(job)) && i < |s.ports.entries|
    ensures var entries, wanted := s.ports.entries, job.inst.port;
            if wanted.Some? && entries[i].port != wanted.value then
              && JobPort(s, job) == wanted.value
              && UsePort(s, job) == State(PortState(entries[i := entries[i].(port := wanted.value)], s.ports.cursor), s.env,
                                          s.errors + if wanted.value in PortsOf(entries) then [PortError(job, wanted.value)] else [])
            else
              JobPort(s, job) == entries[i].port && UsePort(s, job) == s
  {
  }

  lemma {:induction false} UsePortNew(s: State, job: Job)
    requires KeyIndex(s.ports.entries, KeyOf(job)) == |s.ports.entries|
    ensures var entries := s.ports.entries;
            var cursor := if job.inst.port.Some? then s.ports.cursor else FirstFree(PortsOf(entries), s.ports.cursor);
            var port := if job.inst.port.Some? then job.inst.port.value else cursor;
            && JobPort(s, job) == port
            && UsePort(s, job) == State(PortState(PortTable.AddPort(entries, port, "", KeyOf(job)), cursor), s.env,
                                        s.errors + if port in PortsOf(entries) then [PortError(job, port)] else [])
  {
  }

  lemma {:induction false} FoundLast(entries: seq<PortEntry>, p: int32, at: nat)
    requires at <= |entries|
    requires at < |entries| ==> entries[at].port == p
    requires forall j :: (if at == |entries| then 0 else at + 1) <= j < |entries| ==> entries[j].port != p
    ensures at == PortIndex(entries, p)
  {
    if at < |entries| {
      assert entries[at] in entries;
    }
  }

  lemma {:induction false} FoundKey(entries: seq<PortEntry>, key: InstanceKey, i: nat)
    requires i <= |entries| && (i < |entries| ==> entries[i].key == key)
    requires forall j :: 0 <= j < i ==> entries[j].key != key
    ensures i == KeyIndex(entries, key)
  {
  }

  lemma {:induction false} FoundName(entries: seq<EnvEntry>, name: string, i: nat)
    requires i <= |entries| && (i < |entries| ==> entries[i].ev.name == name)
    requires forall j :: 0 <= j < i ==> entries[j].ev.name != name
    ensures i == NameIndex(entries, name)
  {
  }
}
