// The containers of a configured pod, field by field.
module PodContainers {
  import opened Prelude
  import opened Numerals
  import opened EnvVars
  import opened InstanceArgs
  import opened Api
  import opened Configuration
  import PortRuns
  import Names

  // --- The containers that were there ------------------------------------------------------

  // Containers stay in place and keep everything but their environment; there the entries keep
  // their places, and those that the operator does not manage keep their values.
  lemma {:induction false} ContainersKept(containers: seq<ContainerSpec>, matches: seq<AuthProxyWorkload>, userAgent: string, i: nat)
    requires i < |containers|
    ensures var old_, new_ := containers[i], Configured(containers, matches, userAgent)[i];
            && new_.name == old_.name && new_.image == old_.image && new_.resources == old_.resources
            && new_.args == old_.args && new_.ports == old_.ports && new_.probePort == old_.probePort
            && |old_.env| <= |new_.env|
            && forall j :: 0 <= j < |old_.env| ==>
                 && new_.env[j].name == old_.env[j].name
                 && (!Mentions(EnvVarsIn(Final(containers, matches).env), old_.env[j].name) ==> new_.env[j] == old_.env[j])
  {
    var c, table := containers[i], EnvVarsIn(Final(containers, matches).env);
    assert (containers + Proxies(Start(containers), matches, userAgent))[i] == c;
    OverrideShape(c.env, table);
    forall j | 0 <= j < |c.env|
      ensures Resolve(table, c.env[j]).name == c.env[j].name
      ensures !Mentions(table, c.env[j].name) ==> Resolve(table, c.env[j]) == c.env[j]
    {
      LookupFinds(table, c.env[j].name);
    }
  }

  // --- Proxies that the user replaced ------------------------------------------------------

  function ProxyAt(containers: seq<ContainerSpec>, matches: seq<AuthProxyWorkload>, userAgent: string, a: nat): ContainerSpec
    requires a < |matches|
  {
    Configured(containers, matches, userAgent)[|containers| + a]
  }

  lemma {:induction false} ProxyAtIs(containers: seq<ContainerSpec>, matches: seq<AuthProxyWorkload>, userAgent: string, a: nat) returns (s: State)
    requires a < |matches|
    ensures ProxyAt(containers, matches, userAgent, a) ==
            WithEnv(ProxyContainer(s, matches[a], userAgent), Final(containers, matches))
  {
    s := DoJobs(Start(containers), Jobs(matches[..a]));
    var added := Proxies(Start(containers), matches, userAgent);
    assert (containers + added)[|containers| + a] == added[a];
  }

  // A container that the user gives in full is taken over, but for its name and environment.
  lemma {:induction false} OverriddenKept(containers: seq<ContainerSpec>, matches: seq<AuthProxyWorkload>, userAgent: string, a: nat)
    requires a < |matches| && matches[a].Overridden()
    ensures var given, c := matches[a].settings.value.container.value, ProxyAt(containers, matches, userAgent, a);
            && c.name == Names.ContainerName(matches[a].id)
            && c.image == given.image && c.resources == given.resources && c.args == given.args
            && c.ports == given.ports && c.probePort == given.probePort
            && c.env == Override(given.env, EnvVarsIn(Final(containers, matches).env))
  {
    var s := ProxyAtIs(containers, matches, userAgent, a);
    hide Final, ProxyAt;
  }

  // --- Proxies that the operator builds ----------------------------------------------------

  // Image and resources are the user's when given, and the defaults otherwise; the proxy
  // declares no ports.
  lemma {:induction false} ImageAndResources(containers: seq<ContainerSpec>, matches: seq<AuthProxyWorkload>, userAgent: string, a: nat)
    requires a < |matches| && !matches[a].Overridden()
    ensures var settings, c := matches[a].settings, ProxyAt(containers, matches, userAgent, a);
            && c.name == Names.ContainerName(matches[a].id) && c.ports == []
            && (settings.Some? && settings.value.image != "" ==> c.image == settings.value.image)
            && (settings.None? || settings.value.image == "" ==>
                  c.image == "gcr.io/cloud-sql-connectors/cloud-sql-proxy:2.0.0-preview.4")
            && (settings.Some? && settings.value.resources.Some? ==> c.resources == settings.value.resources.value)
            && (settings.None? || settings.value.resources.None? ==> c.resources == "requests: cpu 1.0, memory 2Gi")
  {
    var s := ProxyAtIs(containers, matches, userAgent, a);
    hide Final, ProxyAt, HealthArgs, SettingsArgs, JobArgs;
  }

  // The arguments of a proxy: those that every proxy starts with, those that the settings ask
  // for, and one for each instance.
  ghost predicate ArgsAre(args: seq<string>, p: AuthProxyWorkload, userAgent: string, health: int32, instances: seq<string>) {
    && args == HealthArgs(health) + ["--user-agent=" + userAgent] + SettingsArgs(p.settings) + instances
    && |instances| == |p.instances|
    && forall d :: 0 <= d < |instances| ==> ArgOf(instances[d], p.instances[d])
  }

  ghost predicate ArgOf(arg: string, inst: Instance) {
    exists port: int32 :: arg == InstanceArg(inst, port)
  }

  lemma {:induction false} ArgumentParts(containers: seq<ContainerSpec>, matches: seq<AuthProxyWorkload>, userAgent: string, a: nat)
      returns (health: int32, instances: seq<string>)
    requires a < |matches| && !matches[a].Overridden()
    ensures ArgsAre(ProxyAt(containers, matches, userAgent, a).args, matches[a], userAgent, health, instances)
  {
    var s := ProxyAtIs(containers, matches, userAgent, a);
    health, instances := PortRuns.HealthPort(s.ports.entries), JobArgs(s, JobsOf(matches[a]));
    hide Final, ProxyAt, DoJobs, InstanceArg, SettingsArgs, HealthArgs, PortRuns.HealthPort, JobPort, ImageFor, ResourcesFor;
    forall d | 0 <= d < |instances| ensures ArgOf(instances[d], matches[a].instances[d]) {
      var port := JobPort(DoJobs(s, JobsOf(matches[a])[..d]), JobsOf(matches[a])[d]);
      assert instances[d] == InstanceArg(matches[a].instances[d], port);
    }
  }

  // The texts that every proxy's arguments start with.
  ghost predicate FirstTexts(args: seq<string>, health: int32, userAgent: string) {
    && |args| >= 5
    && args[0] == "--http-port=" + Decimal(health)
    && args[1] == "--http-address=0.0.0.0"
    && args[2] == "--health-check"
    && args[3] == "--structured-logs"
    && args[4] == "--user-agent=" + userAgent
  }

  lemma {:induction false} HealthTexts(health: int32, userAgent: string)
    ensures |HealthArgs(health)| == 4
    ensures FirstTexts(HealthArgs(health) + ["--user-agent=" + userAgent], health, userAgent)
  {
    hide Decimal;
  }

  lemma {:induction false} FirstTextsStay(first: seq<string>, rest: seq<string>, health: int32, userAgent: string)
    requires FirstTexts(first, health, userAgent)
    ensures FirstTexts(first + rest, health, userAgent)
  {
    hide Decimal;
  }

  lemma {:induction false} FirstArguments(containers: seq<ContainerSpec>, matches: seq<AuthProxyWorkload>, userAgent: string, a: nat)
      returns (health: int32)
    requires a < |matches| && !matches[a].Overridden()
    ensures FirstTexts(ProxyAt(containers, matches, userAgent, a).args, health, userAgent)
    ensures |ProxyAt(containers, matches, userAgent, a).args| >= 5 + |matches[a].instances|
  {
    var instances: seq<string>;
    health, instances := ArgumentParts(containers, matches, userAgent, a);
    hide ProxyAt, ArgsAre, FirstTexts;
    FirstOf(ProxyAt(containers, matches, userAgent, a).args, matches[a], userAgent, health, instances);
  }

  lemma {:induction false} FirstOf(args: seq<string>, p: AuthProxyWorkload, userAgent: string, health: int32, instances: seq<string>)
    requires ArgsAre(args, p, userAgent, health, instances)
    ensures FirstTexts(args, health, userAgent) && |args| >= 5 + |p.instances|
  {
    HealthTexts(health, userAgent);
    var first, settings := HealthArgs(health) + ["--user-agent=" + userAgent], SettingsArgs(p.settings);
    hide SettingsArgs, HealthArgs, FirstTexts, ArgOf;
    FirstTextsStay(first, settings + instances, health, userAgent);
    assert args == first + (settings + instances);
  }

  // --- Optional flags ----------------------------------------------------------------------

  function ConnectionsFlag(n: int): string {
    "--max-connections=" + Decimal(n)
  }

  function SigtermFlag(n: int): string {
    "--max-sigterm-delay=" + Decimal(n)
  }

  function EndpointFlag(endpoint: string): string {
    "--sqladmin-api-endpoint=" + endpoint
  }

  // What may stand between the first arguments and those of the instances.
  lemma {:induction false} SettingsArgsAre(settings: Option<ProxySettings>, x: string)
    ensures x in SettingsArgs(settings) <==>
            && settings.Some?
            && var s := settings.value;
            || (s.sqlAdminAPIEndpoint != "" && x == EndpointFlag(s.sqlAdminAPIEndpoint))
            || (s.maxConnections.Some? && s.maxConnections.value != 0 && x == ConnectionsFlag(s.maxConnections.value))
            || (s.maxSigtermDelay.Some? && s.maxSigtermDelay.value != 0 && x == SigtermFlag(s.maxSigtermDelay.value))
  {
    hide Decimal;
  }

  // The letters that tell the flags apart, and the values they carry.
  lemma {:induction false} FlagLetters(m: int, n: int, endpoint: string, other: string)
    ensures |ConnectionsFlag(n)| > 6 && ConnectionsFlag(n)[2] == 'm' && ConnectionsFlag(n)[6] == 'c'
    ensures |SigtermFlag(n)| > 6 && SigtermFlag(n)[2] == 'm' && SigtermFlag(n)[6] == 's'
    ensures |EndpointFlag(endpoint)| > 6 && EndpointFlag(endpoint)[2] == 's' && EndpointFlag(endpoint)[3] == 'q'
    ensures ConnectionsFlag(m) == ConnectionsFlag(n) ==> m == n
    ensures SigtermFlag(m) == SigtermFlag(n) ==> m == n
    ensures EndpointFlag(endpoint) == EndpointFlag(other) ==> endpoint == other
  {
    DecimalReadsBack(m);
    DecimalReadsBack(n);
    hide Decimal;
    assert ConnectionsFlag(m)[18..] == Decimal(m) && ConnectionsFlag(n)[18..] == Decimal(n);
    assert SigtermFlag(m)[20..] == Decimal(m) && SigtermFlag(n)[20..] == Decimal(n);
    assert EndpointFlag(endpoint)[24..] == endpoint && EndpointFlag(other)[24..] == other;
  }

  lemma {:induction false} NoQuestionMark(n: int)
    ensures '?' !in ConnectionsFlag(n) && '?' !in SigtermFlag(n)
  {
    DecimalIsPlain(n);
    hide Decimal;
  }

  lemma {:induction false} FirstLetters(health: int32, userAgent: string, y: string)
    requires y in HealthArgs(health) + ["--user-agent=" + userAgent]
    ensures |y| > 3 && y[2] != 'm' && y[3] != 'q'
  {
    hide Decimal;
  }

  // An argument that is none of an instance comes from the settings, if its letters say so.
  lemma {:induction false} FlagsFromSettings(args: seq<string>, p: AuthProxyWorkload, userAgent: string,
                                             health: int32, instances: seq<string>, x: string)
    requires ArgsAre(args, p, userAgent, health, instances) && |x| > 3 && (x[2] == 'm' || x[3] == 'q')
    ensures |args| >= |instances|
    ensures x in args[..|args| - |instances|] <==> x in SettingsArgs(p.settings)
    ensures x in args <==> x in SettingsArgs(p.settings) || x in instances
  {
    var first := HealthArgs(health) + ["--user-agent=" + userAgent];
    if x in first {
      FirstLetters(health, userAgent, x);
    }
    var settings := SettingsArgs(p.settings);
    hide HealthArgs, SettingsArgs, ArgOf;
    assert args[..|args| - |instances|] == first + settings;
    assert args == first + settings + instances;
  }

  lemma {:induction false} InstancesAsk(args: seq<string>, p: AuthProxyWorkload, userAgent: string,
                                        health: int32, instances: seq<string>, x: string)
    requires ArgsAre(args, p, userAgent, health, instances) && '?' !in x
    ensures x !in instances
  {
    hide HealthArgs, SettingsArgs, InstanceArg;
    forall d | 0 <= d < |instances| ensures '?' in instances[d] {
      assert ArgOf(instances[d], p.instances[d]);
      var port: int32 :| instances[d] == InstanceArg(p.instances[d], port);
      InstanceArgAsks(p.instances[d], port);
    }
  }

  lemma {:induction false} InstanceArgAsks(inst: Instance, port: int32)
    ensures '?' in InstanceArg(inst, port)
  {
    hide Params, PairsOf, Join;
    assert InstanceArg(inst, port)[|inst.connectionString|] == '?';
  }

  // The proxy is told a maximum of connections exactly if one other than zero is set, and is
  // told that number.
  lemma {:induction false} ConnectionsFlagIff(containers: seq<ContainerSpec>, matches: seq<AuthProxyWorkload>, userAgent: string,
                                              a: nat, n: int)
    requires a < |matches| && !matches[a].Overridden()
    ensures "--max-connections=" + Decimal(n) in ProxyAt(containers, matches, userAgent, a).args <==>
            matches[a].settings.Some? && matches[a].settings.value.maxConnections == Some(n) && n != 0
  {
    var health, instances := ArgumentParts(containers, matches, userAgent, a);
    var args, x, settings := ProxyAt(containers, matches, userAgent, a).args, ConnectionsFlag(n), matches[a].settings;
    hide ArgsAre, ProxyAt, SettingsArgs, Decimal, SigtermFlag, EndpointFlag;
    FlagLetters(n, n, "", "");
    NoQuestionMark(n);
    FlagsFromSettings(args, matches[a], userAgent, health, instances, x);
    InstancesAsk(args, matches[a], userAgent, health, instances, x);
    SettingsArgsAre(settings, x);
    OtherFlags(settings, n);
  }

  // Likewise for the delay before the proxy ends.
  lemma {:induction false} SigtermFlagIff(containers: seq<ContainerSpec>, matches: seq<AuthProxyWorkload>, userAgent: string,
                                          a: nat, n: int)
    requires a < |matches| && !matches[a].Overridden()
    ensures "--max-sigterm-delay=" + Decimal(n) in ProxyAt(containers, matches, userAgent, a).args <==>
            matches[a].settings.Some? && matches[a].settings.value.maxSigtermDelay == Some(n) && n != 0
  {
    var health, instances := ArgumentParts(containers, matches, userAgent, a);
    var args, x, settings := ProxyAt(containers, matches, userAgent, a).args, SigtermFlag(n), matches[a].settings;
    hide ArgsAre, ProxyAt, SettingsArgs, Decimal, ConnectionsFlag, EndpointFlag;
    FlagLetters(n, n, "", "");
    NoQuestionMark(n);
    FlagsFromSettings(args, matches[a], userAgent, health, instances, x);
    InstancesAsk(args, matches[a], userAgent, health, instances, x);
    SettingsArgsAre(settings, x);
    OtherFlags(settings, n);
  }

  lemma {:induction false} OtherFlags(settings: Option<ProxySettings>, n: int)
    ensures settings.Some? ==>
              var s := settings.value;
              && ConnectionsFlag(n) != EndpointFlag(s.sqlAdminAPIEndpoint) && SigtermFlag(n) != EndpointFlag(s.sqlAdminAPIEndpoint)
              && (s.maxConnections.Some? ==> SigtermFlag(n) != ConnectionsFlag(s.maxConnections.value))
              && (s.maxConnections.Some? && ConnectionsFlag(n) == ConnectionsFlag(s.maxConnections.value) ==> n == s.maxConnections.value)
              && (s.maxSigtermDelay.Some? ==> ConnectionsFlag(n) != SigtermFlag(s.maxSigtermDelay.value))
              && (s.maxSigtermDelay.Some? && SigtermFlag(n) == SigtermFlag(s.maxSigtermDelay.value) ==> n == s.maxSigtermDelay.value)
  {
    hide ConnectionsFlag, SigtermFlag, EndpointFlag;
    if settings.Some? {
      var s := settings.value;
      var m := if s.maxConnections.Some? then s.maxConnections.value else n;
      var d := if s.maxSigtermDelay.Some? then s.maxSigtermDelay.value else n;
      FlagLetters(m, n, s.sqlAdminAPIEndpoint, "");
      FlagLetters(n, m, "", "");
      FlagLetters(d, n, "", "");
      FlagLetters(n, d, "", "");
    }
  }

  // Before the arguments of the instances, an API endpoint is named exactly if one is set, and
  // it is that one.
  lemma {:induction false} EndpointFlagIff(containers: seq<ContainerSpec>, matches: seq<AuthProxyWorkload>, userAgent: string,
                                           a: nat, endpoint: string)
    requires a < |matches| && !matches[a].Overridden()
    ensures var args := ProxyAt(containers, matches, userAgent, a).args;
            && |matches[a].instances| <= |args|
            && ("--sqladmin-api-endpoint=" + endpoint in args[..|args| - |matches[a].instances|] <==>
                matches[a].settings.Some? && endpoint != "" && matches[a].settings.value.sqlAdminAPIEndpoint == endpoint)
  {
    var health, instances := ArgumentParts(containers, matches, userAgent, a);
    var args, x, settings := ProxyAt(containers, matches, userAgent, a).args, EndpointFlag(endpoint), matches[a].settings;
    assert |instances| == |matches[a].instances|;
    hide ArgsAre, ProxyAt, SettingsArgs, Decimal, ConnectionsFlag, SigtermFlag;
    FlagLetters(0, 0, endpoint, "");
    FlagsFromSettings(args, matches[a], userAgent, health, instances, x);
    SettingsArgsAre(settings, x);
    EndpointApart(settings, endpoint);
  }

  lemma {:induction false} EndpointApart(settings: Option<ProxySettings>, endpoint: string)
    ensures settings.Some? ==>
              var s := settings.value;
              && (EndpointFlag(endpoint) == EndpointFlag(s.sqlAdminAPIEndpoint) ==> endpoint == s.sqlAdminAPIEndpoint)
              && (s.maxConnections.Some? ==> EndpointFlag(endpoint) != ConnectionsFlag(s.maxConnections.value))
              && (s.maxSigtermDelay.Some? ==> EndpointFlag(endpoint) != SigtermFlag(s.maxSigtermDelay.value))
  {
    hide ConnectionsFlag, SigtermFlag, EndpointFlag;
    if settings.Some? {
      var s := settings.value;
      FlagLetters(0, if s.maxConnections.Some? then s.maxConnections.value else 0, endpoint, s.sqlAdminAPIEndpoint);
      FlagLetters(0, if s.maxSigtermDelay.Some? then s.maxSigtermDelay.value else 0, endpoint, s.sqlAdminAPIEndpoint);
    }
  }
}
