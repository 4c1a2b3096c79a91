// Environment variables: the operator's table, and its effect on a container's Env list.
module EnvVars {
  import opened Prelude
  import opened PortTable

  // source stands for ValueFrom, which the operator never sets.
  datatype EnvVar = EnvVar(name: string, value: string, source: Option<string>)

  // An entry of the operator's table, and what a request asks to have filed.
  datatype EnvEntry = EnvEntry(key: InstanceKey, ev: EnvVar)

  function Plain(name: string, value: string): EnvVar {
    EnvVar(name, value, None)
  }

  // --- Lists of variables ------------------------------------------------------------------

  // The kubelet lets the last entry of a name win.
  function Lookup(env: seq<EnvVar>, name: string): Option<EnvVar> {
    if env == [] then None
    else if env[|env| - 1].name == name then Some(env[|env| - 1])
    else Lookup(env[..|env| - 1], name)
  }

  predicate Mentions(env: seq<EnvVar>, name: string) {
    exists j :: 0 <= j < |env| && env[j].name == name
  }

  lemma {:induction false} LookupAppend(env: seq<EnvVar>, e: EnvVar, name: string)
    ensures Lookup(env + [e], name) == if e.name == name then Some(e) else Lookup(env, name)
  {
    assert (env + [e])[..|env|] == env;
  }

  lemma {:induction false} LookupFinds(env: seq<EnvVar>, name: string)
    ensures Lookup(env, name).Some? <==> Mentions(env, name)
    ensures Lookup(env, name).Some? ==> Lookup(env, name).value.name == name && Lookup(env, name).value in env
  {
    if env != [] {
      var rest := env[..|env| - 1];
      LookupFinds(rest, name);
      assert env == rest + [env[|env| - 1]];
      assert forall j :: 0 <= j < |rest| ==> rest[j] == env[j];
    }
  }

  // --- The operator's table ----------------------------------------------------------------

  // The first entry of a name, or |entries|.
  function NameIndex(entries: seq<EnvEntry>, name: string): (r: nat)
    ensures r <= |entries|
    ensures forall j :: 0 <= j < r ==> entries[j].ev.name != name
    ensures r < |entries| ==> entries[r].ev.name == name
  {
    FirstWhere(entries, (e: EnvEntry) => e.ev.name == name, 0)
  }

  // addWorkloadEnvVar: the new table, and whether EnvVarConflict is reported.
  function AddEnv(entries: seq<EnvEntry>, key: InstanceKey, ev: EnvVar): (seq<EnvEntry>, bool) {
    var i := NameIndex(entries, ev.name);
    if i < |entries| then (entries[i := entries[i].(ev := ev)], entries[i].ev.value != ev.value)
    else (entries + [EnvEntry(key, ev)], false)
  }

  datatype EnvRun = EnvRun(entries: seq<EnvEntry>, conflicts: nat)

  function Collect(reqs: seq<EnvEntry>): EnvRun {
    if reqs == [] then EnvRun([], 0)
    else
      var before := Collect(reqs[..|reqs| - 1]);
      var (entries, conflict) := AddEnv(before.entries, reqs[|reqs| - 1].key, reqs[|reqs| - 1].ev);
      EnvRun(entries, before.conflicts + if conflict then 1 else 0)
  }

  function EnvVarsIn(entries: seq<EnvEntry>): (vars: seq<EnvVar>)
    ensures |vars| == |entries|
    ensures forall i :: 0 <= i < |entries| ==> vars[i] == entries[i].ev
  {
    seq(|entries|, i requires 0 <= i < |entries| => entries[i].ev)
  }

  ghost predicate NamesUnique(vars: seq<EnvVar>) {
    forall i, j :: 0 <= i < j < |vars| ==> vars[i].name != vars[j].name
  }

  // The values asked for agree name by name.
  ghost predicate Agree(vars: seq<EnvVar>) {
    forall i, j :: 0 <= i < j < |vars| && vars[i].name == vars[j].name ==> vars[i].value == vars[j].value
  }

  lemma {:induction false} LookupUnique(vars: seq<EnvVar>, i: nat)
    requires NamesUnique(vars) && i < |vars|
    ensures Lookup(vars, vars[i].name) == Some(vars[i])
  {
    var n := |vars| - 1;
    if i < n {
      LookupUnique(vars[..n], i);
      assert vars[i].name != vars[n].name;
    }
  }

  lemma {:induction false} LookupUpdate(vars: seq<EnvVar>, i: nat, ev: EnvVar, name: string)
    requires NamesUnique(vars) && i < |vars| && vars[i].name == ev.name
    ensures Lookup(vars[i := ev], name) == if name == ev.name then Some(ev) else Lookup(vars, name)
  {
    var n := |vars| - 1;
    if i < n {
      LookupUpdate(vars[..n], i, ev, name);
      assert vars[i := ev][..n] == vars[..n][i := ev];
      assert vars[i].name != vars[n].name;
    } else {
      assert vars[i := ev][..n] == vars[..n];
    }
  }

  lemma {:induction false} AddEnvUnique(entries: seq<EnvEntry>, key: InstanceKey, ev: EnvVar)
    requires NamesUnique(EnvVarsIn(entries))
    ensures NamesUnique(EnvVarsIn(AddEnv(entries, key, ev).0))
  {
    var vars, after := EnvVarsIn(entries), EnvVarsIn(AddEnv(entries, key, ev).0);
    forall j | 0 <= j < |entries| ensures after[j].name == vars[j].name {
    }
  }

  lemma {:induction false} AddEnvFacts(entries: seq<EnvEntry>, key: InstanceKey, ev: EnvVar, name: string)
    requires NamesUnique(EnvVarsIn(entries))
    ensures var (after, conflict) := AddEnv(entries, key, ev);
            && NamesUnique(EnvVarsIn(after))
            && Lookup(EnvVarsIn(after), name) == (if name == ev.name then Some(ev) else Lookup(EnvVarsIn(entries), name))
            && (conflict <==> Lookup(EnvVarsIn(entries), ev.name).Some? &&
                              Lookup(EnvVarsIn(entries), ev.name).value.value != ev.value)
  {
    hide Lookup, NamesUnique;
    AddEnvUnique(entries, key, ev);
    var i, vars := NameIndex(entries, ev.name), EnvVarsIn(entries);
    var after := AddEnv(entries, key, ev).0;
    LookupFinds(vars, ev.name);
    if i < |entries| {
      assert EnvVarsIn(after) == vars[i := ev];
      LookupUpdate(vars, i, ev, name);
      LookupUnique(vars, i);
    } else {
      assert EnvVarsIn(after) == vars + [ev];
      LookupAppend(vars, ev, name);
    }
  }

  // The table answers every name with the last value asked for it.
  lemma {:induction false} TableAnswers(reqs: seq<EnvEntry>, name: string)
    ensures NamesUnique(EnvVarsIn(Collect(reqs).entries))
    ensures Lookup(EnvVarsIn(Collect(reqs).entries), name) == Lookup(EnvVarsIn(reqs), name)
  {
    if reqs != [] {
      var rest, r := reqs[..|reqs| - 1], reqs[|reqs| - 1];
      TableAnswers(rest, name);
      var before := Collect(rest);
      assert Collect(reqs).entries == AddEnv(before.entries, r.key, r.ev).0;
      AddEnvFacts(before.entries, r.key, r.ev, name);
      LookupAppend(EnvVarsIn(rest), r.ev, name);
      assert EnvVarsIn(reqs) == EnvVarsIn(rest) + [r.ev];
    }
  }

  lemma {:induction false} LookupAgrees(vars: seq<EnvVar>, i: nat)
    requires Agree(vars) && i < |vars|
    ensures Lookup(vars, vars[i].name).Some?
    ensures Lookup(vars, vars[i].name).value.value == vars[i].value
  {
    LookupFinds(vars, vars[i].name);
    var j :| 0 <= j < |vars| && vars[j] == Lookup(vars, vars[i].name).value;
  }

  lemma {:induction false} AgreeAppend(vars: seq<EnvVar>, ev: EnvVar)
    requires Agree(vars)
    ensures Agree(vars + [ev]) <==>
            (Lookup(vars, ev.name).Some? ==> Lookup(vars, ev.name).value.value == ev.value)
  {
    var more, n := vars + [ev], |vars|;
    assert forall i :: 0 <= i < n ==> more[i] == vars[i];
    assert more[n] == ev;
    LookupFinds(vars, ev.name);
    if Lookup(vars, ev.name).Some? && Agree(more) {
      var i :| 0 <= i < n && vars[i] == Lookup(vars, ev.name).value;
      assert more[i].name == more[n].name;
    }
    if Lookup(vars, ev.name).Some? ==> Lookup(vars, ev.name).value.value == ev.value {
      forall i | 0 <= i < n && more[i].name == ev.name ensures more[i].value == ev.value {
        LookupAgrees(vars, i);
      }
    }
  }

  lemma {:induction false} AgreePrefix(vars: seq<EnvVar>, ev: EnvVar)
    requires Agree(vars + [ev])
    ensures Agree(vars)
  {
    assert forall i :: 0 <= i < |vars| ==> (vars + [ev])[i] == vars[i];
  }

  lemma {:induction false} ConflictOnLast(reqs: seq<EnvEntry>, r: EnvEntry)
    ensures Collect(reqs + [r]).conflicts == 0 <==>
            && Collect(reqs).conflicts == 0
            && (Lookup(EnvVarsIn(reqs), r.ev.name).Some? ==> Lookup(EnvVarsIn(reqs), r.ev.name).value.value == r.ev.value)
  {
    assert (reqs + [r])[..|reqs|] == reqs;
    TableAnswers(reqs, r.ev.name);
    AddEnvFacts(Collect(reqs).entries, r.key, r.ev, r.ev.name);
  }

  lemma {:induction false} AgreeLast(vars: seq<EnvVar>, ev: EnvVar)
    ensures Agree(vars + [ev]) <==>
            Agree(vars) && (Lookup(vars, ev.name).Some? ==> Lookup(vars, ev.name).value.value == ev.value)
  {
    if Agree(vars) {
      AgreeAppend(vars, ev);
    } else if Agree(vars + [ev]) {
      AgreePrefix(vars, ev);
    }
  }

  // EnvVarConflict is reported exactly when two requests of the whole run share a name but
  // not a value.
  lemma {:induction false} EnvConflictIff(reqs: seq<EnvEntry>)
    ensures Collect(reqs).conflicts == 0 <==> Agree(EnvVarsIn(reqs))
  {
    if reqs != [] {
      var rest, r := reqs[..|reqs| - 1], reqs[|reqs| - 1];
      EnvConflictIff(rest);
      ConflictOnLast(rest, r);
      assert reqs == rest + [r];
      AgreeLast(EnvVarsIn(rest), r.ev);
      assert EnvVarsIn(reqs) == EnvVarsIn(rest) + [r.ev];
    }
  }

  // Without a conflict every request ever made is honoured by the final table.
  lemma {:induction false} RequestsHonoured(reqs: seq<EnvEntry>, i: nat)
    requires i < |reqs| && Collect(reqs).conflicts == 0
    ensures Lookup(EnvVarsIn(Collect(reqs).entries), reqs[i].ev.name).Some?
    ensures Lookup(EnvVarsIn(Collect(reqs).entries), reqs[i].ev.name).value.value == reqs[i].ev.value
  {
    EnvConflictIff(reqs);
    TableAnswers(reqs, reqs[i].ev.name);
    LookupAgrees(EnvVarsIn(reqs), i);
  }

  // --- A container's Env list --------------------------------------------------------------

  function ReplaceAll(env: seq<EnvVar>, op: EnvVar): (r: seq<EnvVar>)
    ensures |r| == |env|
    ensures forall j :: 0 <= j < |env| ==> r[j] == if env[j].name == op.name then op else env[j]
  {
    seq(|env|, j requires 0 <= j < |env| => if env[j].name == op.name then op else env[j])
  }

  function SetEnv(env: seq<EnvVar>, op: EnvVar): seq<EnvVar> {
    if Mentions(env, op.name) then ReplaceAll(env, op) else env + [op]
  }

  // updateContainerEnv.
  function Override(env: seq<EnvVar>, table: seq<EnvVar>): seq<EnvVar> {
    if table == [] then env
    else SetEnv(Override(env, table[..|table| - 1]), table[|table| - 1])
  }

  lemma {:induction false} LookupReplaceAll(env: seq<EnvVar>, op: EnvVar, name: string)
    ensures Lookup(ReplaceAll(env, op), name) ==
            if name == op.name && Mentions(env, name) then Some(op) else Lookup(env, name)
  {
    LookupFinds(env, name);
    if env != [] {
      var rest := env[..|env| - 1];
      LookupReplaceAll(rest, op, name);
      LookupFinds(rest, name);
      assert ReplaceAll(env, op)[..|env| - 1] == ReplaceAll(rest, op);
    }
  }

  lemma {:induction false} LookupSetEnv(env: seq<EnvVar>, op: EnvVar, name: string)
    ensures Lookup(SetEnv(env, op), name) == if name == op.name then Some(op) else Lookup(env, name)
  {
    LookupReplaceAll(env, op, name);
    LookupAppend(env, op, name);
  }

  // Under last-wins lookup the result is the old environment overridden by the table.
  lemma {:induction false} LookupOverride(env: seq<EnvVar>, table: seq<EnvVar>, name: string)
    ensures Lookup(Override(env, table), name) ==
            if Lookup(table, name).Some? then Lookup(table, name) else Lookup(env, name)
  {
    if table != [] {
      var rest, op := table[..|table| - 1], table[|table| - 1];
      LookupOverride(env, rest, name);
      LookupSetEnv(Override(env, rest), op, name);
    }
  }

  // What one old entry becomes.
  function Resolve(table: seq<EnvVar>, e: EnvVar): EnvVar {
    if Lookup(table, e.name).Some? then Lookup(table, e.name).value else e
  }

  // Old entries stay in place: operator names, every occurrence, get the operator's value,
  // all others keep theirs.
  ghost predicate OldKept(env: seq<EnvVar>, table: seq<EnvVar>, result: seq<EnvVar>) {
    |env| <= |result| && forall j :: 0 <= j < |env| ==> result[j] == Resolve(table, env[j])
  }

  // What is appended are operator variables that the list lacked, each once.
  ghost predicate OnlyMissingAdded(env: seq<EnvVar>, table: seq<EnvVar>, result: seq<EnvVar>) {
    forall j :: |env| <= j < |result| ==>
      && Lookup(table, result[j].name) == Some(result[j])
      && forall i :: 0 <= i < j ==> result[i].name != result[j].name
  }

  lemma {:induction false} ResolveAppend(table: seq<EnvVar>, op: EnvVar, e: EnvVar)
    ensures Resolve(table + [op], e) == if e.name == op.name then op else Resolve(table, e)
    ensures Resolve(table, e).name == e.name
  {
    LookupAppend(table, op, e.name);
    LookupFinds(table, e.name);
  }

  lemma {:induction false} OverrideShape(env: seq<EnvVar>, table: seq<EnvVar>)
    ensures OldKept(env, table, Override(env, table))
    ensures OnlyMissingAdded(env, table, Override(env, table))
  {
    if table != [] {
      var rest, op := table[..|table| - 1], table[|table| - 1];
      OverrideShape(env, rest);
      SetEnvKeepsOld(env, rest, op, Override(env, rest));
      SetEnvAddsMissing(env, rest, op, Override(env, rest));
      assert table == rest + [op];
    }
  }

  lemma {:induction false} SetEnvKeepsOld(env: seq<EnvVar>, table: seq<EnvVar>, op: EnvVar, result: seq<EnvVar>)
    requires OldKept(env, table, result)
    ensures OldKept(env, table + [op], SetEnv(result, op))
  {
    forall j | 0 <= j < |env| ensures SetEnv(result, op)[j] == Resolve(table + [op], env[j]) {
      ResolveAppend(table, op, env[j]);
    }
  }

  lemma {:induction false} SetEnvAddsMissing(env: seq<EnvVar>, table: seq<EnvVar>, op: EnvVar, result: seq<EnvVar>)
    requires |env| <= |result| && OnlyMissingAdded(env, table, result)
    ensures OnlyMissingAdded(env, table + [op], SetEnv(result, op))
  {
    var after := SetEnv(result, op);
    assert forall i :: 0 <= i < |result| ==> after[i].name == result[i].name;
    forall j | |env| <= j < |after| ensures Lookup(table + [op], after[j].name) == Some(after[j]) {
      LookupAppend(table, op, after[j].name);
    }
  }

  // A list that already answers every operator name with the operator's value is unchanged.
  lemma {:induction false} OverrideIdempotent(env: seq<EnvVar>, table: seq<EnvVar>)
    ensures Override(Override(env, table), table) == Override(env, table)
  {
    var once := Override(env, table);
    var twice := Override(once, table);
    OverrideShape(env, table);
    OverrideShape(once, table);
    forall j | 0 <= j < |once| ensures Resolve(table, once[j]) == once[j] {
      if j < |env| {
        LookupFinds(table, env[j].name);
      }
    }
    if |once| < |twice| {
      var added := twice[|once|];
      LookupOverride(env, table, added.name);
      LookupFinds(once, added.name);
    }
  }
}
