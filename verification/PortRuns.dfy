// What holds of whole runs of port requests.
module PortRuns {
  import opened Prelude
  import opened PortTable
  import Names

  // --- One step ----------------------------------------------------------------------------

  lemma {:induction false} KeyIndexAppend(entries: seq<PortEntry>, e: PortEntry, key: InstanceKey)
    ensures KeyIndex(entries + [e], key) ==
            if KeyIndex(entries, key) < |entries| then KeyIndex(entries, key)
            else if e.key == key then |entries|
            else |entries| + 1
  {
    assert forall i :: 0 <= i < |entries| ==> (entries + [e])[i] == entries[i];
    assert (entries + [e])[|entries|] == e;
  }

  // A request with an unregistered key is filed unless its port is taken.
  lemma {:induction false} UseNew(s: PortState, r: Request)
    requires KeyIndex(s.entries, r.key) == |s.entries|
    ensures var g := Use(s, r);
            && (g.conflict <==> g.port in PortsOf(s.entries))
            && (r.wanted.Some? ==> g.port == r.wanted.value && g.state.cursor == s.cursor)
            && (r.wanted.None? ==> g.port == FirstFree(PortsOf(s.entries), s.cursor) == g.state.cursor)
            && g.state.entries == if g.conflict then s.entries else s.entries + [PortEntry(r.key, g.port, map[])]
  {
  }

  lemma {:induction false} RegisterFacts(claims: seq<Claim>)
    ensures forall e :: e in Register(claims) ==> e.key == NO_INSTANCE
    ensures PortsDistinct(Register(claims))
    ensures PortsOf(Register(claims)) == ClaimedPorts(claims)
    ensures |Register(claims)| == |ClaimedPorts(claims)|
  {
    if claims != [] {
      var rest, c := claims[..|claims| - 1], claims[|claims| - 1];
      RegisterFacts(rest);
      AddPortPorts(Register(rest), c.port, c.container);
      ClaimedPortsLast(claims);
    }
    PortsOfSize(Register(claims));
  }

  lemma {:induction false} ClaimedPortsLast(claims: seq<Claim>)
    requires claims != []
    ensures ClaimedPorts(claims) == ClaimedPorts(claims[..|claims| - 1]) + {claims[|claims| - 1].port}
  {
    var rest, c := claims[..|claims| - 1], claims[|claims| - 1];
    assert claims == rest + [c];
    forall p | p in ClaimedPorts(rest) + {c.port} ensures p in ClaimedPorts(claims) {
      if p == c.port {
        assert c in claims;
      } else {
        var d :| d in rest && d.port == p;
        assert d in claims;
      }
    }
  }

  lemma {:induction false} AddPortPorts(entries: seq<PortEntry>, p: int32, container: string)
    requires PortsDistinct(entries)
    requires forall e :: e in entries ==> e.key == NO_INSTANCE
    ensures var filed := AddPort(entries, p, container, NO_INSTANCE);
            && PortsDistinct(filed) && PortsOf(filed) == PortsOf(entries) + {p}
            && (forall e :: e in filed ==> e.key == NO_INSTANCE)
  {
    var i := PortIndex(entries, p);
    var more := if i == |entries| then entries + [PortEntry(NO_INSTANCE, p, map[])] else entries;
    var filed := AddPort(entries, p, container, NO_INSTANCE);
    assert |filed| == |more| && forall j :: 0 <= j < |more| ==> filed[j].port == more[j].port;
    SamePorts(filed, more);
    PortsOfAppend(entries, PortEntry(NO_INSTANCE, p, map[]));
    if i < |entries| {
      assert entries[i] in entries;
    }
  }

  lemma {:induction false} SamePorts(a: seq<PortEntry>, b: seq<PortEntry>)
    requires |a| == |b| && forall j :: 0 <= j < |a| ==> a[j].port == b[j].port
    ensures PortsOf(a) == PortsOf(b)
  {
    forall p | p in PortsOf(a) ensures p in PortsOf(b) {
      var j :| 0 <= j < |a| && a[j].port == p;
      assert b[j] in b;
    }
    forall p | p in PortsOf(b) ensures p in PortsOf(a) {
      var j :| 0 <= j < |b| && b[j].port == p;
      assert a[j] in a;
    }
  }

  // --- Runs with keys of their own ---------------------------------------------------------

  function KeysOf(reqs: seq<Request>): set<InstanceKey> {
    set r | r in reqs :: r.key
  }

  lemma {:induction false} FreshLast(reqs: seq<Request>)
    requires FreshKeys(reqs) && reqs != []
    ensures var rest, r := reqs[..|reqs| - 1], reqs[|reqs| - 1];
            && FreshKeys(rest) && reqs == rest + [r]
            && r.key !in KeysOf(rest) && r.key != NO_INSTANCE
            && KeysOf(reqs) == KeysOf(rest) + {r.key}
  {
    var rest, r := reqs[..|reqs| - 1], reqs[|reqs| - 1];
    assert reqs == rest + [r];
    forall k | k in KeysOf(rest) + {r.key} ensures k in KeysOf(reqs) {
      if k == r.key {
        assert r in reqs;
      } else {
        var q :| q in rest && q.key == k;
        assert q in reqs;
      }
    }
  }

  // Only keys already requested are registered.
  ghost predicate KeysWithin(entries: seq<PortEntry>, keys: set<InstanceKey>) {
    forall e :: e in entries ==> e.key == NO_INSTANCE || e.key in keys
  }

  lemma {:induction false} UnregisteredKey(entries: seq<PortEntry>, keys: set<InstanceKey>, key: InstanceKey)
    requires KeysWithin(entries, keys) && key !in keys && key != NO_INSTANCE
    ensures KeyIndex(entries, key) == |entries|
  {
    assert forall i :: 0 <= i < |entries| ==> entries[i] in entries;
  }

  lemma {:induction false} FreshRunKeys(claims: seq<Claim>, reqs: seq<Request>)
    requires FreshKeys(reqs)
    ensures KeysWithin(Run(StartState(claims), reqs).state.entries, KeysOf(reqs))
    ensures reqs != [] ==>
              var s := Run(StartState(claims), reqs[..|reqs| - 1]).state;
              KeyIndex(s.entries, reqs[|reqs| - 1].key) == |s.entries|
  {
    RegisterFacts(claims);
    if reqs != [] {
      var rest, r := reqs[..|reqs| - 1], reqs[|reqs| - 1];
      FreshLast(reqs);
      FreshRunKeys(claims, rest);
      var s := Run(StartState(claims), rest).state;
      UnregisteredKey(s.entries, KeysOf(rest), r.key);
      UseNew(s, r);
    }
  }

  // --- Runs in which no port is rewritten --------------------------------------------------

  ghost predicate NamedKeys(reqs: seq<Request>) {
    forall i :: 0 <= i < |reqs| ==> reqs[i].key != NO_INSTANCE
  }

  ghost predicate RewritesAt(claims: seq<Claim>, reqs: seq<Request>, i: nat)
    requires i < |reqs|
  {
    Rewrites(Run(StartState(claims), reqs[..i]).state, reqs[i])
  }

  // No request hits the branch that changes an instance's port.
  ghost predicate NeverRewrites(claims: seq<Claim>, reqs: seq<Request>) {
    forall i: nat :: i < |reqs| ==> !RewritesAt(claims, reqs, i)
  }

  lemma {:induction false} NeverRewritesLast(claims: seq<Claim>, reqs: seq<Request>)
    requires reqs != [] && NamedKeys(reqs)
    ensures var n := |reqs| - 1;
            NeverRewrites(claims, reqs) <==> NeverRewrites(claims, reqs[..n]) && !RewritesAt(claims, reqs, n)
    ensures NamedKeys(reqs[..|reqs| - 1])
  {
    var n := |reqs| - 1;
    forall i: nat | i < n ensures RewritesAt(claims, reqs, i) == RewritesAt(claims, reqs[..n], i) {
      assert reqs[..n][..i] == reqs[..i];
    }
  }

  lemma {:induction false} FreshNeverRewrites(claims: seq<Claim>, reqs: seq<Request>)
    requires FreshKeys(reqs)
    ensures NeverRewrites(claims, reqs) && NamedKeys(reqs)
  {
    if reqs != [] {
      FreshLast(reqs);
      FreshNeverRewrites(claims, reqs[..|reqs| - 1]);
      NeverRewritesLast(claims, reqs);
      FreshRunKeys(claims, reqs);
    }
  }

  function PortFor(entries: seq<PortEntry>, key: InstanceKey): Option<int32> {
    var i := KeyIndex(entries, key);
    if i < |entries| then Some(entries[i].port) else None
  }

  // What one request does to the port that each instance holds.
  lemma {:induction false} UseHolds(s: PortState, r: Request)
    ensures var g := Use(s, r);
            && (!g.conflict || PortFor(s.entries, r.key).Some? ==> PortFor(g.state.entries, r.key) == Some(g.port))
            && (PortFor(s.entries, r.key).Some? && !Rewrites(s, r) ==>
                  g == Grant(s, PortFor(s.entries, r.key).value, false))
            && (Rewrites(s, r) ==> Some(g.port) == r.wanted && Some(g.port) != PortFor(s.entries, r.key))
  {
    var i := KeyIndex(s.entries, r.key);
    if i == |s.entries| {
      UseNew(s, r);
      KeyIndexAppend(s.entries, PortEntry(r.key, Use(s, r).port, map[]), r.key);
    } else if Rewrites(s, r) {
      KeyIndexUpdate(s.entries, i, r.wanted.value, r.key);
    }
  }

  lemma {:induction false} UseLeavesOthers(s: PortState, r: Request, key: InstanceKey)
    requires key != r.key
    ensures PortFor(Use(s, r).state.entries, key) == PortFor(s.entries, key)
  {
    var i := KeyIndex(s.entries, r.key);
    if i == |s.entries| {
      UseNew(s, r);
      KeyIndexAppend(s.entries, PortEntry(r.key, Use(s, r).port, map[]), key);
    } else if Rewrites(s, r) {
      KeyIndexUpdate(s.entries, i, r.wanted.value, key);
    }
  }

  lemma {:induction false} KeyIndexUpdate(entries: seq<PortEntry>, i: nat, p: int32, key: InstanceKey)
    requires i < |entries|
    ensures KeyIndex(entries[i := entries[i].(port := p)], key) == KeyIndex(entries, key)
  {
    var updated := entries[i := entries[i].(port := p)];
    assert forall j :: 0 <= j < |entries| ==> updated[j].key == entries[j].key;
  }

  // Every port an instance holds was granted to it by some request.
  lemma {:induction false} HeldWasGranted(claims: seq<Claim>, reqs: seq<Request>, key: InstanceKey) returns (i: nat)
    requires key != NO_INSTANCE
    requires PortFor(Run(StartState(claims), reqs).state.entries, key).Some?
    ensures i < |reqs| && reqs[i].key == key
    ensures PortFor(Run(StartState(claims), reqs).state.entries, key) == Some(Run(StartState(claims), reqs).ports[i])
  {
    RegisterFacts(claims);
    if reqs == [] {
      UnregisteredKey(Register(claims), {}, key);
      assert false;
    } else {
      var rest, r := reqs[..|reqs| - 1], reqs[|reqs| - 1];
      var s := Run(StartState(claims), rest).state;
      if r.key == key {
        i := |reqs| - 1;
        UseHolds(s, r);
        if Use(s, r).conflict && KeyIndex(s.entries, key) == |s.entries| {
          UseNew(s, r);
        }
      } else {
        UseLeavesOthers(s, r, key);
        i := HeldWasGranted(claims, rest, key);
      }
    }
  }

  ghost predicate HeldIn(entries: seq<PortEntry>, reqs: seq<Request>, ports: seq<int32>)
    requires |reqs| == |ports|
  {
    forall i :: 0 <= i < |reqs| ==> PortFor(entries, reqs[i].key) == Some(ports[i])
  }

  // Every instance still holds, at the end, each port that was ever granted to it.
  ghost predicate StillHeld(claims: seq<Claim>, reqs: seq<Request>) {
    var run := Run(StartState(claims), reqs);
    HeldIn(run.state.entries, reqs, run.ports)
  }

  lemma {:induction false} HeldStep(s: PortState, reqs: seq<Request>, ports: seq<int32>, r: Request)
    requires |reqs| == |ports| && HeldIn(s.entries, reqs, ports)
    requires !Rewrites(s, r) && !Use(s, r).conflict
    ensures HeldIn(Use(s, r).state.entries, reqs + [r], ports + [Use(s, r).port])
  {
    UseHolds(s, r);
    forall i | 0 <= i < |reqs| && reqs[i].key != r.key
      ensures PortFor(Use(s, r).state.entries, reqs[i].key) == Some(ports[i])
    {
      UseLeavesOthers(s, r, reqs[i].key);
    }
  }

  lemma {:induction false} NeverRewrittenIsHeld(claims: seq<Claim>, reqs: seq<Request>)
    requires NamedKeys(reqs) && NeverRewrites(claims, reqs)
    requires Run(StartState(claims), reqs).conflicts == 0
    ensures StillHeld(claims, reqs)
  {
    if reqs != [] {
      var rest, r := reqs[..|reqs| - 1], reqs[|reqs| - 1];
      NeverRewritesLast(claims, reqs);
      NeverRewrittenIsHeld(claims, rest);
      var before := Run(StartState(claims), rest);
      HeldStep(before.state, rest, before.ports, r);
      assert reqs == rest + [r];
    }
  }

  // The ports printed in arguments and the table agree at the end exactly when no request
  // takes the rewriting branch.
  lemma {:induction false} HeldIffNeverRewritten(claims: seq<Claim>, reqs: seq<Request>)
    requires NamedKeys(reqs) && Run(StartState(claims), reqs).conflicts == 0
    ensures StillHeld(claims, reqs) <==> NeverRewrites(claims, reqs)
  {
    if NeverRewrites(claims, reqs) {
      NeverRewrittenIsHeld(claims, reqs);
    } else {
      var j: nat :| j < |reqs| && RewritesAt(claims, reqs, j);
      var s := Run(StartState(claims), reqs[..j]).state;
      UseHolds(s, reqs[j]);
      var i := HeldWasGranted(claims, reqs[..j], reqs[j].key);
      RunPrefix(StartState(claims), reqs, j);
      RunAt(StartState(claims), reqs, j);
      assert reqs[..j][i] == reqs[i];
      assert Run(StartState(claims), reqs).ports[i] != Run(StartState(claims), reqs).ports[j];
    }
  }

  // A rewrite frees a port that an argument already names: another instance can get it, and
  // no conflict is reported.
  lemma {:induction false} RewriteSharesAPort(a: InstanceKey, b: InstanceKey, p: int32, q: int32)
    requires a != b && p != q && a != NO_INSTANCE && b != NO_INSTANCE
    ensures var run := Run(StartState([]), [Request(a, Some(p)), Request(a, Some(q)), Request(b, Some(p))]);
            run.conflicts == 0 && run.ports == [p, q, p]
  {
    var r1, r2, r3 := Request(a, Some(p)), Request(a, Some(q)), Request(b, Some(p));
    var s := StartState([]);
    RunAppend(s, [], r1);
    RunAppend(s, [r1], r2);
    RunAppend(s, [r1, r2], r3);
    assert [] + [r1] == [r1] && [r1] + [r2] == [r1, r2] && [r1, r2] + [r3] == [r1, r2, r3];
    FileOnly([], a, p, s.cursor);
    RewriteOnly(a, p, q, s.cursor);
    assert p !in PortsOf([PortEntry(a, q, map[])]);
    FileOnly([PortEntry(a, q, map[])], b, p, s.cursor);
  }

  lemma {:induction false} FileOnly(entries: seq<PortEntry>, key: InstanceKey, p: int32, cursor: int32)
    requires p !in PortsOf(entries) && forall e :: e in entries ==> e.key != key
    ensures Use(PortState(entries, cursor), Request(key, Some(p))) ==
            Grant(PortState(entries + [PortEntry(key, p, map[])], cursor), p, false)
  {
    assert forall i :: 0 <= i < |entries| ==> entries[i] in entries;
    UseNew(PortState(entries, cursor), Request(key, Some(p)));
  }

  lemma {:induction false} RewriteOnly(key: InstanceKey, p: int32, q: int32, cursor: int32)
    requires p != q
    ensures Use(PortState([] + [PortEntry(key, p, map[])], cursor), Request(key, Some(q))) ==
            Grant(PortState([PortEntry(key, q, map[])], cursor), q, false)
  {
    var t := [] + [PortEntry(key, p, map[])];
    KeyIndexAppend([], PortEntry(key, p, map[]), key);
    assert t[0 := t[0].(port := q)] == [PortEntry(key, q, map[])];
    assert q !in PortsOf(t);
  }

  lemma {:induction false} RunAppend(s: PortState, reqs: seq<Request>, r: Request)
    ensures var before := Run(s, reqs);
            var g := Use(before.state, r);
            Run(s, reqs + [r]) ==
            PortRun(g.state, before.ports + [g.port], before.conflicts + if g.conflict then 1 else 0)
  {
    assert (reqs + [r])[..|reqs|] == reqs;
  }

  // --- The table of such a run -------------------------------------------------------------

  lemma {:induction false} FilingKeepsDistinct(entries: seq<PortEntry>, e: PortEntry)
    requires PortsDistinct(entries)
    ensures PortsOf(entries + [e]) == PortsOf(entries) + {e.port}
    ensures e.port !in PortsOf(entries) ==> PortsDistinct(entries + [e])
  {
    PortsOfAppend(entries, e);
    if e.port !in PortsOf(entries) {
      forall i | 0 <= i < |entries| ensures entries[i].port != e.port {
        assert entries[i] in entries;
      }
    }
  }

  lemma {:induction false} TableGrows(claims: seq<Claim>, reqs: seq<Request>)
    requires NamedKeys(reqs) && NeverRewrites(claims, reqs)
    ensures var run := Run(StartState(claims), reqs);
            && PortsDistinct(run.state.entries)
            && Register(claims) <= run.state.entries
            && PortsOf(run.state.entries) <= ClaimedPorts(claims) + Elements(run.ports)
            && |run.state.entries| <= |ClaimedPorts(claims)| + |reqs|
  {
    RegisterFacts(claims);
    if reqs != [] {
      var rest, r := reqs[..|reqs| - 1], reqs[|reqs| - 1];
      NeverRewritesLast(claims, reqs);
      TableGrows(claims, rest);
      var before := Run(StartState(claims), rest);
      UseGrows(before.state, r);
      hide Use, Register, NeverRewrites, PortsOf, PortsDistinct, Elements;
      ElementsConcat(before.ports, [Use(before.state, r).port]);
    }
  }

  lemma {:induction false} UseGrows(s: PortState, r: Request)
    requires !Rewrites(s, r) && PortsDistinct(s.entries)
    ensures var after := Use(s, r).state.entries;
            && PortsDistinct(after) && s.entries <= after && |after| <= |s.entries| + 1
            && PortsOf(after) <= PortsOf(s.entries) + Elements([Use(s, r).port])
  {
    if KeyIndex(s.entries, r.key) == |s.entries| {
      UseNew(s, r);
      FilingKeepsDistinct(s.entries, PortEntry(r.key, Use(s, r).port, map[]));
    }
  }

  // The ports in use are exactly those the application declares and those ever granted.
  lemma {:induction false} TablePortsExact(claims: seq<Claim>, reqs: seq<Request>)
    requires NamedKeys(reqs) && NeverRewrites(claims, reqs)
    ensures PortsOf(Run(StartState(claims), reqs).state.entries) ==
            ClaimedPorts(claims) + Elements(Run(StartState(claims), reqs).ports)
  {
    RegisterFacts(claims);
    if reqs != [] {
      var rest, r := reqs[..|reqs| - 1], reqs[|reqs| - 1];
      NeverRewritesLast(claims, reqs);
      TablePortsExact(claims, rest);
      var before := Run(StartState(claims), rest);
      UsePortsExact(before.state, r);
      ElementsConcat(before.ports, [Use(before.state, r).port]);
    }
  }

  lemma {:induction false} UsePortsExact(s: PortState, r: Request)
    requires !Rewrites(s, r)
    ensures PortsOf(Use(s, r).state.entries) == PortsOf(s.entries) + {Use(s, r).port}
  {
    var i := KeyIndex(s.entries, r.key);
    if i == |s.entries| {
      UseNew(s, r);
      PortsOfAppend(s.entries, PortEntry(r.key, Use(s, r).port, map[]));
    } else {
      assert s.entries[i] in s.entries;
    }
  }

  // Each declared port's entry remembers every container that declared it.
  ghost predicate Remembers(entries: seq<PortEntry>, c: Claim) {
    exists i :: 0 <= i < |entries| && entries[i].port == c.port &&
                c.container in entries[i].originals && entries[i].originals[c.container] == c.port
  }

  lemma {:induction false} DeclaredPortsRemembered(claims: seq<Claim>)
    requires forall c :: c in claims ==> c.container != "" && !(Names.CONTAINER_PREFIX <= c.container)
    ensures forall c :: c in claims ==> Remembers(Register(claims), c)
  {
    if claims != [] {
      var rest, last := claims[..|claims| - 1], claims[|claims| - 1];
      assert claims == rest + [last];
      DeclaredPortsRemembered(rest);
      forall c | c in claims ensures Remembers(Register(claims), c) {
        AddPortRemembers(Register(rest), last, c);
      }
    }
  }

  lemma {:induction false} AddPortRemembers(entries: seq<PortEntry>, last: Claim, c: Claim)
    requires last.container != "" && !(Names.CONTAINER_PREFIX <= last.container)
    requires c == last || Remembers(entries, c)
    ensures Remembers(AddPort(entries, last.port, last.container, NO_INSTANCE), c)
  {
    var filed := AddPort(entries, last.port, last.container, NO_INSTANCE);
    var at := PortIndex(entries, last.port);
    assert filed[at].port == last.port && filed[at].originals[last.container] == last.port;
    if c != last {
      var i :| 0 <= i < |entries| && entries[i].port == c.port &&
               c.container in entries[i].originals && entries[i].originals[c.container] == c.port;
      assert filed[i].port == c.port && filed[i].originals[c.container] == c.port;
    }
  }

  // Conservation: every request with a key of its own either takes one table entry or is
  // reported once, so entries and conflicts together count application ports and requests.
  lemma {:induction false} PortsConserved(claims: seq<Claim>, reqs: seq<Request>)
    requires FreshKeys(reqs)
    ensures var run := Run(StartState(claims), reqs);
            |run.state.entries| + run.conflicts == |ClaimedPorts(claims)| + |reqs|
  {
    RegisterFacts(claims);
    if reqs != [] {
      FreshLast(reqs);
      PortsConserved(claims, reqs[..|reqs| - 1]);
      FreshRunKeys(claims, reqs);
      UseNew(Run(StartState(claims), reqs[..|reqs| - 1]).state, reqs[|reqs| - 1]);
    }
  }

  // Without conflict and rewriting, two requests share a port exactly when they are for the
  // same instance, and no instance gets a port of an application container.
  lemma {:induction false} OwnPorts(claims: seq<Claim>, reqs: seq<Request>)
    requires NamedKeys(reqs) && NeverRewrites(claims, reqs)
    requires Run(StartState(claims), reqs).conflicts == 0
    ensures var ports := Run(StartState(claims), reqs).ports;
            && (forall i, j :: 0 <= i < |reqs| && 0 <= j < |reqs| ==>
                  (ports[i] == ports[j] <==> reqs[i].key == reqs[j].key))
            && (forall i :: 0 <= i < |reqs| ==> ports[i] !in ClaimedPorts(claims))
  {
    var run := Run(StartState(claims), reqs);
    var entries := run.state.entries;
    NeverRewrittenIsHeld(claims, reqs);
    TableGrows(claims, reqs);
    RegisterFacts(claims);
    forall i | 0 <= i < |reqs| ensures run.ports[i] !in ClaimedPorts(claims) {
      HeldIsNotBase(Register(claims), entries, reqs[i].key);
    }
    forall i, j | 0 <= i < |reqs| && 0 <= j < |reqs| && reqs[i].key != reqs[j].key
      ensures run.ports[i] != run.ports[j]
    {
      HeldDiffers(entries, reqs[i].key, reqs[j].key);
    }
  }

  lemma {:induction false} HeldDiffers(entries: seq<PortEntry>, a: InstanceKey, b: InstanceKey)
    requires PortsDistinct(entries) && a != b
    requires PortFor(entries, a).Some? && PortFor(entries, b).Some?
    ensures PortFor(entries, a) != PortFor(entries, b)
  {
    var i, j := KeyIndex(entries, a), KeyIndex(entries, b);
    assert i != j;
  }

  lemma {:induction false} HeldIsNotBase(base: seq<PortEntry>, entries: seq<PortEntry>, key: InstanceKey)
    requires PortsDistinct(entries) && base <= entries
    requires forall e :: e in base ==> e.key != key
    requires PortFor(entries, key).Some?
    ensures PortFor(entries, key).value !in PortsOf(base)
  {
    var i := KeyIndex(entries, key);
    assert forall j :: 0 <= j < |base| ==> base[j] in base;
    forall e | e in base ensures e.port != entries[i].port {
      var j :| 0 <= j < |base| && base[j] == e;
    }
  }

  // Asking again for an instance's port, or for any port, changes nothing.
  lemma {:induction false} RepeatChangesNothing(claims: seq<Claim>, reqs: seq<Request>, i: nat, wanted: Option<int32>)
    requires NamedKeys(reqs) && NeverRewrites(claims, reqs)
    requires Run(StartState(claims), reqs).conflicts == 0
    requires i < |reqs|
    requires wanted == None || wanted == Some(Run(StartState(claims), reqs).ports[i])
    ensures var run := Run(StartState(claims), reqs);
            Use(run.state, Request(reqs[i].key, wanted)) == Grant(run.state, run.ports[i], false)
  {
    NeverRewrittenIsHeld(claims, reqs);
    UseHolds(Run(StartState(claims), reqs).state, Request(reqs[i].key, wanted));
  }

  // --- The moving cursor -------------------------------------------------------------------

  ghost predicate SweptBy(entries: seq<PortEntry>, cursor: int32, m: nat) {
    cursor == Hop(FIRST_DB_PORT, m) && AllUsed(PortsOf(entries), FIRST_DB_PORT, m)
  }

  // Everything the cursor has passed since port 5000 is in use.
  ghost predicate Swept(s: PortState) {
    exists m: nat :: SweptBy(s.entries, s.cursor, m)
  }

  lemma {:induction false} SweepOn(used: set<int32>, p: int32, m: nat, n: nat)
    requires AllUsed(used, p, m) && AllUsed(used, Hop(p, m), n)
    ensures AllUsed(used, p, m + n)
  {
    forall j: nat | j < m + n ensures Hop(p, j) in used {
      if j >= m {
        HopHop(p, m, j - m);
        assert Hop(Hop(p, m), j - m) in used;
      }
    }
  }

  lemma {:induction false} CursorSwept(claims: seq<Claim>, reqs: seq<Request>)
    requires NamedKeys(reqs) && NeverRewrites(claims, reqs)
    ensures Swept(Run(StartState(claims), reqs).state)
  {
    if reqs == [] {
      assert SweptBy(Register(claims), FIRST_DB_PORT, 0);
    } else {
      var rest, r := reqs[..|reqs| - 1], reqs[|reqs| - 1];
      NeverRewritesLast(claims, reqs);
      CursorSwept(claims, rest);
      UseSweeps(Run(StartState(claims), rest).state, r);
    }
  }

  lemma {:induction false} UseSweeps(s: PortState, r: Request)
    requires Swept(s) && !Rewrites(s, r)
    ensures Swept(Use(s, r).state)
  {
    var m: nat :| SweptBy(s.entries, s.cursor, m);
    if KeyIndex(s.entries, r.key) == |s.entries| {
      UseNew(s, r);
      var g := Use(s, r);
      var used, n := PortsOf(s.entries), if r.wanted.Some? then 0 else Steps(PortsOf(s.entries), s.cursor, 0);
      PortsOfAppend(s.entries, PortEntry(r.key, g.port, map[]));
      SweepOn(used, FIRST_DB_PORT, m, n);
      HopHop(FIRST_DB_PORT, m, n);
      assert SweptBy(g.state.entries, g.state.cursor, m + n);
    }
  }

  // The moving cursor refines a search that starts at 5000 each time.
  lemma {:induction false} CursorRefines(s: PortState)
    requires Swept(s) && |PortsOf(s.entries)| < INT32_VALUES
    ensures FirstFree(PortsOf(s.entries), s.cursor) == FirstFree(PortsOf(s.entries), FIRST_DB_PORT)
  {
    var m: nat :| SweptBy(s.entries, s.cursor, m);
    var used := PortsOf(s.entries);
    var n := Steps(used, FIRST_DB_PORT, 0);
    FirstFreeIsFree(used, FIRST_DB_PORT);
    assert m <= n;
    HopHop(FIRST_DB_PORT, m, n - m);
    forall j: nat | j < n - m ensures Hop(s.cursor, j) in used {
      HopHop(FIRST_DB_PORT, m, j);
      assert Hop(FIRST_DB_PORT, m + j) in used;
    }
    FirstFreeUnique(used, s.cursor, n - m);
  }

  // An automatic port is the least free port at or above 5000; pods with at most 60535 ports
  // and instances keep it a TCP port.
  lemma {:induction false} AutomaticPortIsLeast(claims: seq<Claim>, reqs: seq<Request>, r: Request)
    requires NamedKeys(reqs) && NeverRewrites(claims, reqs)
    requires FIRST_DB_PORT + |claims| + |reqs| <= MAX_INT32
    requires r.wanted == None && PortFor(Run(StartState(claims), reqs).state.entries, r.key) == None
    ensures var s := Run(StartState(claims), reqs).state;
            && IsLeastFree(PortsOf(s.entries), 5000, Use(s, r).port)
            && Use(s, r).port <= 5000 + |claims| + |reqs|
            && !Use(s, r).conflict
    ensures |claims| + |reqs| <= 60535 ==> Use(Run(StartState(claims), reqs).state, r).port <= 65535
  {
    var s := Run(StartState(claims), reqs).state;
    TableSize(claims, reqs);
    CursorSwept(claims, reqs);
    CursorRefines(s);
    UseNew(s, r);
    FirstFreeIsLeast(PortsOf(s.entries), FIRST_DB_PORT);
  }

  lemma {:induction false} TableSize(claims: seq<Claim>, reqs: seq<Request>)
    requires NamedKeys(reqs) && NeverRewrites(claims, reqs)
    ensures |PortsOf(Run(StartState(claims), reqs).state.entries)| <= |claims| + |reqs|
  {
    TableGrows(claims, reqs);
    PortsOfSize(Run(StartState(claims), reqs).state.entries);
    ClaimedPortsSize(claims);
  }

  lemma {:induction false} ClaimedPortsSize(claims: seq<Claim>)
    ensures |ClaimedPorts(claims)| <= |claims|
  {
    if claims != [] {
      ClaimedPortsLast(claims);
      ClaimedPortsSize(claims[..|claims| - 1]);
    }
  }

  function HealthPort(entries: seq<PortEntry>): int32 {
    FirstFree(PortsOf(entries), HEALTH_CHECK_PORT)
  }

  // The health-check port is the least unregistered port at or above 9801.
  lemma {:induction false} HealthPortIsLeast(claims: seq<Claim>, reqs: seq<Request>)
    requires NamedKeys(reqs) && NeverRewrites(claims, reqs)
    requires HEALTH_CHECK_PORT + |claims| + |reqs| <= MAX_INT32
    ensures var s := Run(StartState(claims), reqs).state;
            && IsLeastFree(PortsOf(s.entries), 9801, HealthPort(s.entries))
            && HealthPort(s.entries) <= 9801 + |claims| + |reqs|
    ensures |claims| + |reqs| <= 55734 ==> HealthPort(Run(StartState(claims), reqs).state.entries) <= 65535
  {
    TableSize(claims, reqs);
    FirstFreeIsLeast(PortsOf(Run(StartState(claims), reqs).state.entries), HEALTH_CHECK_PORT);
  }

  // A later health check gets the port of an earlier one exactly if no instance took that port
  // in between: health-check ports are not registered.
  lemma {:induction false} HealthPortsCoincideIff(earlier: seq<PortEntry>, later: seq<PortEntry>)
    requires PortsOf(earlier) <= PortsOf(later) && |PortsOf(later)| < INT32_VALUES
    ensures HealthPort(later) == HealthPort(earlier) <==> HealthPort(earlier) !in PortsOf(later)
  {
    FirstFreeIsFree(PortsOf(later), HEALTH_CHECK_PORT);
    if HealthPort(earlier) !in PortsOf(later) {
      FirstFreeUnique(PortsOf(later), HEALTH_CHECK_PORT, Steps(PortsOf(earlier), HEALTH_CHECK_PORT, 0));
    }
  }
}
