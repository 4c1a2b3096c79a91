// How the order of the port requests decides whether they conflict.
module PortOrders {
  import opened Prelude
  import opened PortTable
  import opened PortRuns

  // --- Automatic ports ---------------------------------------------------------------------

  // n times: add the first free port from 5000 on.
  function TakeFree(used: set<int32>, n: nat): set<int32> {
    if n == 0 then used
    else
      var before := TakeFree(used, n - 1);
      before + {FirstFree(before, 5000)}
  }

  ghost predicate AllAutomatic(reqs: seq<Request>) {
    forall i :: 0 <= i < |reqs| ==> reqs[i].wanted == None
  }

  lemma {:induction false} AutomaticRun(claims: seq<Claim>, reqs: seq<Request>)
    requires FreshKeys(reqs) && AllAutomatic(reqs) && |claims| + |reqs| <= INT32_VALUES
    ensures var run := Run(StartState(claims), reqs);
            && run.conflicts == 0
            && PortsOf(run.state.entries) == TakeFree(ClaimedPorts(claims), |reqs|)
  {
    RegisterFacts(claims);
    if reqs != [] {
      var rest, r := reqs[..|reqs| - 1], reqs[|reqs| - 1];
      FreshLast(reqs);
      AutomaticRun(claims, rest);
      FreshRunKeys(claims, reqs);
      FreshNeverRewrites(claims, rest);
      TableSize(claims, rest);
      CursorSwept(claims, rest);
      var s := Run(StartState(claims), rest).state;
      CursorRefines(s);
      UseNew(s, r);
      FirstFreeIsFree(PortsOf(s.entries), 5000);
      PortsOfAppend(s.entries, PortEntry(r.key, Use(s, r).port, map[]));
    }
  }

  lemma {:induction false} FreshSize(reqs: seq<Request>)
    requires FreshKeys(reqs)
    ensures |Elements(reqs)| == |reqs|
  {
    RequestsApart(reqs);
    ElementsSize(reqs);
  }

  // If all ports are automatic there is no conflict, and any two orders of the same requests
  // use the same set of ports.
  lemma {:induction false} AutomaticOrderIrrelevant(claims: seq<Claim>, a: seq<Request>, b: seq<Request>)
    requires FreshKeys(a) && FreshKeys(b) && Elements(a) == Elements(b)
    requires AllAutomatic(a) && |claims| + |a| <= INT32_VALUES
    ensures Run(StartState(claims), a).conflicts == Run(StartState(claims), b).conflicts == 0
    ensures PortsOf(Run(StartState(claims), a).state.entries) == PortsOf(Run(StartState(claims), b).state.entries)
  {
    FreshSize(a);
    FreshSize(b);
    forall i | 0 <= i < |b| ensures b[i].wanted == None {
      assert b[i] in Elements(a);
    }
    AutomaticRun(claims, a);
    AutomaticRun(claims, b);
  }

  lemma {:induction false} RequestsApart(reqs: seq<Request>)
    requires FreshKeys(reqs)
    ensures forall i, j :: 0 <= i < j < |reqs| ==> reqs[i] != reqs[j]
  {
    forall i, j | 0 <= i < j < |reqs| ensures reqs[i] != reqs[j] {
      assert reqs[i].key != reqs[j].key;
    }
  }

  lemma {:induction false} FreshRunKeysAt(claims: seq<Claim>, reqs: seq<Request>, i: nat)
    requires FreshKeys(reqs) && i < |reqs|
    ensures var s := Run(StartState(claims), reqs[..i]).state;
            KeyIndex(s.entries, reqs[i].key) == |s.entries|
  {
    assert FreshKeys(reqs[..i + 1]);
    assert reqs[..i + 1][..i] == reqs[..i];
    FreshRunKeys(claims, reqs[..i + 1]);
  }

  // --- What each request is granted --------------------------------------------------------

  // No automatic search can run past the largest int32.
  ghost predicate CountersFit(claims: seq<Claim>, reqs: seq<Request>) {
    forall i :: 0 <= i < |reqs| && reqs[i].wanted == None ==> 5000 + |claims| + |reqs| <= MAX_INT32
  }

  // The i-th request alone, in the state that the ones before it leave.
  lemma {:induction false} GrantedAt(claims: seq<Claim>, reqs: seq<Request>, i: nat)
    requires FreshKeys(reqs) && CountersFit(claims, reqs) && i < |reqs|
    ensures var before, p := Run(StartState(claims), reqs[..i]), Run(StartState(claims), reqs).ports[i];
            && Use(before.state, reqs[i]).port == p
            && (Use(before.state, reqs[i]).conflict <==> p in ClaimedPorts(claims) + Elements(before.ports))
            && if reqs[i].wanted.Some? then p == reqs[i].wanted.value
               else IsLeastFree(ClaimedPorts(claims) + Elements(before.ports), 5000, p)
                    && p <= 5000 + |claims| + i
  {
    var rest, r := reqs[..i], reqs[i];
    assert FreshKeys(rest);
    RunAt(StartState(claims), reqs, i);
    FreshRunKeysAt(claims, reqs, i);
    FreshNeverRewrites(claims, rest);
    TablePortsExact(claims, rest);
    UseNew(Run(StartState(claims), rest).state, r);
    if r.wanted == None {
      AutomaticPortIsLeast(claims, rest, r);
    }
  }

  // Ports handed out earlier are those of the whole run.
  lemma {:induction false} EarlierPort(claims: seq<Claim>, reqs: seq<Request>, i: nat, p: int32) returns (h: nat)
    requires i <= |reqs| && p in Run(StartState(claims), reqs[..i]).ports
    ensures h < i && Run(StartState(claims), reqs).ports[h] == p
  {
    RunPrefix(StartState(claims), reqs, i);
    h :| 0 <= h < i && Run(StartState(claims), reqs[..i]).ports[h] == p;
  }

  // --- When a run conflicts ----------------------------------------------------------------

  function ExplicitPorts(reqs: set<Request>): set<int32> {
    set r | r in reqs && r.wanted.Some? :: r.wanted.value
  }

  function Automatic(reqs: set<Request>): set<Request> {
    set r | r in reqs && r.wanted == None
  }

  // The ports from 5000 up to p that no application container and no explicit request takes.
  function FreeBelow(claims: seq<Claim>, reqs: set<Request>, p: int32): set<int32> {
    set q: int32 | 5000 <= q < p && q !in ClaimedPorts(claims) && q !in ExplicitPorts(reqs)
  }

  // The explicit ports are pairwise different and none belongs to an application container.
  // This speaks of the set of requests only, so it holds of every order or of none.
  ghost predicate ExplicitPortsApart(claims: seq<Claim>, reqs: set<Request>) {
    && (forall q, r :: q in reqs && r in reqs && q != r && q.wanted.Some? ==> q.wanted != r.wanted)
    && (forall r :: r in reqs && r.wanted.Some? ==> r.wanted.value !in ClaimedPorts(claims))
  }

  // The automatic requests before the j-th, explicit one find enough free ports below its port.
  ghost predicate RoomAt(claims: seq<Claim>, reqs: seq<Request>, j: nat)
    requires j < |reqs|
  {
    reqs[j].wanted.Some? && 5000 <= reqs[j].wanted.value ==>
      |Automatic(Elements(reqs[..j]))| <= |FreeBelow(claims, Elements(reqs), reqs[j].wanted.value)|
  }

  ghost predicate RoomInOrder(claims: seq<Claim>, reqs: seq<Request>) {
    forall j: nat :: j < |reqs| ==> RoomAt(claims, reqs, j)
  }

  // The port that a request holds in a table.
  function HeldBy(entries: seq<PortEntry>, r: Request): int32 {
    if PortFor(entries, r.key).Some? then PortFor(entries, r.key).value else 0
  }

  // An automatic port has at most as many free ports below it as there were automatic
  // requests before.
  lemma {:induction false} AutomaticCrowds(claims: seq<Claim>, reqs: seq<Request>, i: nat)
    requires FreshKeys(reqs) && CountersFit(claims, reqs) && i < |reqs| && reqs[i].wanted == None
    requires Run(StartState(claims), reqs[..i]).conflicts == 0
    ensures |FreeBelow(claims, Elements(reqs), Run(StartState(claims), reqs).ports[i])| <= |Automatic(Elements(reqs[..i]))|
  {
    hide Run, Use, Register, StartState, NeverRewrites, NamedKeys, KeyIndex;
    var rest, port := reqs[..i], Run(StartState(claims), reqs).ports[i];
    var before := Run(StartState(claims), rest);
    GrantedAt(claims, reqs, i);
    FreshNeverRewrites(claims, rest);
    NeverRewrittenIsHeld(claims, rest);
    var entries, reqSet := before.state.entries, Elements(reqs);
    forall q | q in FreeBelow(claims, reqSet, port)
      ensures exists x :: x in Automatic(Elements(rest)) && HeldBy(entries, x) == q
    {
      assert q in ClaimedPorts(claims) + Elements(before.ports);
      var h := EarlierPort(claims, reqs, i, q);
      GrantedAt(claims, reqs, h);
      RunPrefix(StartState(claims), reqs, i);
      assert reqs[h] in reqSet && rest[h] == reqs[h];
      assert reqs[h] in Automatic(Elements(rest)) && HeldBy(entries, reqs[h]) == q;
    }
    CoverSize(Automatic(Elements(rest)), FreeBelow(claims, reqSet, port), r => HeldBy(entries, r));
  }

  // One more request does not conflict if the explicit ports are apart and have room.
  lemma {:induction false} NextIsFree(claims: seq<Claim>, reqs: seq<Request>, j: nat)
    requires FreshKeys(reqs) && CountersFit(claims, reqs) && j < |reqs|
    requires ExplicitPortsApart(claims, Elements(reqs)) && RoomInOrder(claims, reqs)
    requires Run(StartState(claims), reqs[..j]).conflicts == 0
    ensures !Use(Run(StartState(claims), reqs[..j]).state, reqs[j]).conflict
  {
    var p, earlier := Run(StartState(claims), reqs).ports[j], Run(StartState(claims), reqs[..j]).ports;
    GrantedAt(claims, reqs, j);
    assert reqs[j] in Elements(reqs) && RoomAt(claims, reqs, j);
    if reqs[j].wanted.Some? && p in earlier {
      var i := EarlierPort(claims, reqs, j, p);
      GrantedAt(claims, reqs, i);
      assert reqs[i] in Elements(reqs) && reqs[i] != reqs[j];
      assert reqs[i].wanted == None;
      RunPrefix(StartState(claims), reqs[..j], i);
      assert reqs[..j][..i] == reqs[..i];
      AutomaticCrowds(claims, reqs, i);
      MoreAutomatic(reqs, i, j);
    }
  }

  lemma {:induction false} MoreAutomatic(reqs: seq<Request>, i: nat, j: nat)
    requires FreshKeys(reqs) && i < j <= |reqs| && reqs[i].wanted == None
    ensures |Automatic(Elements(reqs[..i]))| < |Automatic(Elements(reqs[..j]))|
  {
    var few, many := Automatic(Elements(reqs[..i])), Automatic(Elements(reqs[..j]));
    assert reqs[..j][i] == reqs[i];
    assert reqs[i] in many;
    assert reqs[i] !in few;
    forall r | r in few ensures r in many {
      var h :| 0 <= h < i && reqs[..i][h] == r;
      assert reqs[..j][h] == r;
    }
    SubsetSize(few + {reqs[i]}, many);
  }

  lemma {:induction false} RoomIsEnough(claims: seq<Claim>, reqs: seq<Request>, j: nat)
    requires FreshKeys(reqs) && CountersFit(claims, reqs) && j <= |reqs|
    requires ExplicitPortsApart(claims, Elements(reqs)) && RoomInOrder(claims, reqs)
    ensures Run(StartState(claims), reqs[..j]).conflicts == 0
  {
    if j > 0 {
      RoomIsEnough(claims, reqs, j - 1);
      NextIsFree(claims, reqs, j - 1);
      assert reqs[..j][..j - 1] == reqs[..j - 1];
    }
  }

  // In a run without conflict the explicit ports are apart ...
  lemma {:induction false} ApartIsNeeded(claims: seq<Claim>, reqs: seq<Request>)
    requires FreshKeys(reqs) && CountersFit(claims, reqs)
    requires Run(StartState(claims), reqs).conflicts == 0
    ensures ExplicitPortsApart(claims, Elements(reqs))
  {
    FreshNeverRewrites(claims, reqs);
    OwnPorts(claims, reqs);
    forall i | 0 <= i < |reqs| && reqs[i].wanted.Some?
      ensures Run(StartState(claims), reqs).ports[i] == reqs[i].wanted.value
    {
      GrantedAt(claims, reqs, i);
    }
  }

  // ... and every automatic port granted before an explicit one above it is one of the free
  // ports below that.
  lemma {:induction false} AutomaticIsBelow(claims: seq<Claim>, reqs: seq<Request>, i: nat, j: nat)
    requires FreshKeys(reqs) && CountersFit(claims, reqs) && i < j < |reqs|
    requires Run(StartState(claims), reqs).conflicts == 0
    requires reqs[i].wanted == None && reqs[j].wanted.Some? && 5000 <= reqs[j].wanted.value
    ensures Run(StartState(claims), reqs).ports[i] in FreeBelow(claims, Elements(reqs), reqs[j].wanted.value)
  {
    hide Run, Use, Register, StartState, NeverRewrites, NamedKeys;
    var ports, p := Run(StartState(claims), reqs).ports, reqs[j].wanted.value;
    FreshNeverRewrites(claims, reqs);
    OwnPorts(claims, reqs);
    GrantedAt(claims, reqs, i);
    GrantedAt(claims, reqs, j);
    assert ports[j] == p && p !in ClaimedPorts(claims);
    if p < ports[i] {
      assert p in ClaimedPorts(claims) + Elements(Run(StartState(claims), reqs[..i]).ports);
      var h := EarlierPort(claims, reqs, i, p);
      assert false;
    }
    forall r | r in reqs && r.wanted.Some? ensures r.wanted.value != ports[i] {
      var h :| 0 <= h < |reqs| && reqs[h] == r;
      GrantedAt(claims, reqs, h);
    }
  }

  lemma {:induction false} RoomIsNeeded(claims: seq<Claim>, reqs: seq<Request>, j: nat)
    requires FreshKeys(reqs) && CountersFit(claims, reqs) && j < |reqs|
    requires Run(StartState(claims), reqs).conflicts == 0
    ensures RoomAt(claims, reqs, j)
  {
    if reqs[j].wanted.Some? && 5000 <= reqs[j].wanted.value {
      var run := Run(StartState(claims), reqs);
      var entries, early := run.state.entries, Automatic(Elements(reqs[..j]));
      var free := FreeBelow(claims, Elements(reqs), reqs[j].wanted.value);
      FreshNeverRewrites(claims, reqs);
      NeverRewrittenIsHeld(claims, reqs);
      TableGrows(claims, reqs);
      forall x | x in early ensures HeldBy(entries, x) in free && PortFor(entries, x.key).Some? && x in reqs {
        var i :| 0 <= i < j && reqs[..j][i] == x;
        assert reqs[i] == x;
        AutomaticIsBelow(claims, reqs, i, j);
      }
      forall x, y | x in early && y in early && x != y ensures HeldBy(entries, x) != HeldBy(entries, y) {
        KeysTellApart(reqs, x, y);
        HeldDiffers(entries, x.key, y.key);
      }
      InjectionSize(early, free, r => HeldBy(entries, r));
    }
  }

  lemma {:induction false} KeysTellApart(reqs: seq<Request>, x: Request, y: Request)
    requires FreshKeys(reqs) && x in reqs && y in reqs && x != y
    ensures x.key != y.key
  {
    var i :| 0 <= i < |reqs| && reqs[i] == x;
    var j :| 0 <= j < |reqs| && reqs[j] == y;
    assert i < j || j < i;
  }

  // Whether a run conflicts, decided before it: it does not exactly when the explicit ports
  // are apart, and below each of them from 5000 on there are as many free ports as automatic
  // requests come before it.
  lemma {:induction false} ConflictFreeIff(claims: seq<Claim>, reqs: seq<Request>)
    requires FreshKeys(reqs) && CountersFit(claims, reqs)
    ensures Run(StartState(claims), reqs).conflicts == 0 <==>
            ExplicitPortsApart(claims, Elements(reqs)) && RoomInOrder(claims, reqs)
  {
    if ExplicitPortsApart(claims, Elements(reqs)) && RoomInOrder(claims, reqs) {
      RoomIsEnough(claims, reqs, |reqs|);
      assert reqs[..|reqs|] == reqs;
    }
    if Run(StartState(claims), reqs).conflicts == 0 {
      ApartIsNeeded(claims, reqs);
      forall j: nat | j < |reqs| ensures RoomAt(claims, reqs, j) {
        RoomIsNeeded(claims, reqs, j);
      }
    }
  }

  // If all ports are explicit, a conflict is reported exactly when two requests share a port
  // or one asks for a port of an application container, in whatever order they come.
  lemma {:induction false} ExplicitConflictIff(claims: seq<Claim>, reqs: seq<Request>)
    requires FreshKeys(reqs)
    requires forall i :: 0 <= i < |reqs| ==> reqs[i].wanted.Some?
    ensures Run(StartState(claims), reqs).conflicts == 0 <==> ExplicitPortsApart(claims, Elements(reqs))
  {
    ConflictFreeIff(claims, reqs);
    forall j: nat | j < |reqs| ensures RoomAt(claims, reqs, j) {
      assert Automatic(Elements(reqs[..j])) == {};
    }
  }

  // --- All orders --------------------------------------------------------------------------

  ghost predicate IsOrder(order: seq<Request>, reqs: set<Request>) {
    FreshKeys(order) && Elements(order) == reqs
  }

  ghost predicate RoomInAnyOrder(claims: seq<Claim>, reqs: set<Request>) {
    forall r :: r in reqs && r.wanted.Some? && 5000 <= r.wanted.value ==>
      |Automatic(reqs)| <= |FreeBelow(claims, reqs, r.wanted.value)|
  }

  lemma {:induction false} SameOrderFits(claims: seq<Claim>, reqs: seq<Request>, order: seq<Request>)
    requires FreshKeys(reqs) && CountersFit(claims, reqs) && IsOrder(order, Elements(reqs))
    ensures CountersFit(claims, order) && |order| == |reqs|
  {
    FreshSize(reqs);
    FreshSize(order);
    forall i | 0 <= i < |order| && order[i].wanted == None ensures 5000 + |claims| + |order| <= MAX_INT32 {
      assert order[i] in Elements(reqs);
    }
  }

  lemma {:induction false} AnyOrderHasRoom(claims: seq<Claim>, reqs: seq<Request>)
    requires RoomInAnyOrder(claims, Elements(reqs))
    ensures RoomInOrder(claims, reqs)
  {
    forall j: nat | j < |reqs| ensures RoomAt(claims, reqs, j) {
      assert reqs[j] in Elements(reqs);
      SubsetSize(Automatic(Elements(reqs[..j])), Automatic(Elements(reqs)));
    }
  }

  // The order that puts the j-th request last is the worst one for it.
  lemma {:induction false} LastNeedsRoom(claims: seq<Claim>, reqs: seq<Request>, j: nat)
    requires FreshKeys(reqs) && CountersFit(claims, reqs) && j < |reqs|
    requires reqs[j].wanted.Some? && 5000 <= reqs[j].wanted.value
    requires forall order :: IsOrder(order, Elements(reqs)) ==> Run(StartState(claims), order).conflicts == 0
    ensures |Automatic(Elements(reqs))| <= |FreeBelow(claims, Elements(reqs), reqs[j].wanted.value)|
  {
    var rest := reqs[..j] + reqs[j + 1..];
    var order := rest + [reqs[j]];
    MovedIsOrder(reqs, j, rest);
    SameOrderFits(claims, reqs, order);
    RoomIsNeeded(claims, order, |rest|);
    assert order[..|rest|] == rest;
    assert Automatic(Elements(rest)) == Automatic(Elements(reqs));
  }

  lemma {:induction false} MovedIsOrder(reqs: seq<Request>, j: nat, rest: seq<Request>)
    requires FreshKeys(reqs) && j < |reqs| && rest == reqs[..j] + reqs[j + 1..]
    ensures IsOrder(rest + [reqs[j]], Elements(reqs))
    ensures Elements(reqs) == Elements(rest) + {reqs[j]}
  {
    assert reqs == reqs[..j] + [reqs[j]] + reqs[j + 1..];
    var order := rest + [reqs[j]];
    var at := (i: nat) => if i < j then i else if i < |rest| then i + 1 else j;
    assert forall i: nat :: i < |order| ==> order[i] == reqs[at(i)];
    forall h, i | 0 <= h < i < |order| ensures order[h].key != order[i].key {
      assert at(h) != at(i);
    }
    ElementsConcat(rest, [reqs[j]]);
    ElementsConcat(reqs[..j] + [reqs[j]], reqs[j + 1..]);
    ElementsConcat(reqs[..j], [reqs[j]]);
    ElementsConcat(reqs[..j], reqs[j + 1..]);
  }

  // No order of the requests conflicts exactly when the explicit ports are apart and below
  // each of them from 5000 on there are as many free ports as automatic requests.
  lemma {:induction false} NoOrderConflictsIff(claims: seq<Claim>, reqs: seq<Request>)
    requires FreshKeys(reqs) && CountersFit(claims, reqs)
    ensures (forall order :: IsOrder(order, Elements(reqs)) ==> Run(StartState(claims), order).conflicts == 0) <==>
            ExplicitPortsApart(claims, Elements(reqs)) && RoomInAnyOrder(claims, Elements(reqs))
  {
    if ExplicitPortsApart(claims, Elements(reqs)) && RoomInAnyOrder(claims, Elements(reqs)) {
      forall order | IsOrder(order, Elements(reqs)) ensures Run(StartState(claims), order).conflicts == 0 {
        SameOrderFits(claims, reqs, order);
        AnyOrderHasRoom(claims, order);
        ConflictFreeIff(claims, order);
      }
    }
    if forall order :: IsOrder(order, Elements(reqs)) ==> Run(StartState(claims), order).conflicts == 0 {
      assert IsOrder(reqs, Elements(reqs));
      ApartIsNeeded(claims, reqs);
      forall r | r in Elements(reqs) && r.wanted.Some? && 5000 <= r.wanted.value
        ensures |Automatic(Elements(reqs))| <= |FreeBelow(claims, Elements(reqs), r.wanted.value)|
      {
        var j :| 0 <= j < |reqs| && reqs[j] == r;
        LastNeedsRoom(claims, reqs, j);
      }
    }
  }

  // --- A condition that is easy to check ---------------------------------------------------

  // Automatic ports of a pod with n application ports and requests come from the n ports
  // that start at 5000.
  predicate InAutomaticRange(p: int32, n: nat) {
    5000 <= p < 5000 + n
  }

  // Each granted port is the explicit one, or lies in the automatic range.
  ghost predicate GrantedAsAsked(reqs: seq<Request>, ports: seq<int32>, n: nat)
    requires |reqs| == |ports|
  {
    forall i :: 0 <= i < |reqs| ==>
      if reqs[i].wanted.Some? then ports[i] == reqs[i].wanted.value else InAutomaticRange(ports[i], n)
  }

  // Explicit ports are outside the automatic range of n ports, and n is large enough for the
  // pod if there is any automatic request.
  ghost predicate ClearOfAutomatic(claims: seq<Claim>, reqs: seq<Request>, n: nat) {
    forall i :: 0 <= i < |reqs| ==>
      if reqs[i].wanted.Some? then !InAutomaticRange(reqs[i].wanted.value, n) else |claims| + |reqs| <= n
  }

  function Interval(low: int32, n: nat): (r: set<int32>)
    requires low + n <= MAX_INT32
    ensures forall q: int32 :: q in r <==> low <= q < low + n
    ensures |r| == n
  {
    if n == 0 then {} else Interval(low, n - 1) + {low + (n - 1)}
  }

  lemma {:induction false} ClearLeavesRoom(claims: seq<Claim>, reqs: seq<Request>, n: nat)
    requires ClearOfAutomatic(claims, reqs, n) && 5000 + n <= MAX_INT32
    ensures CountersFit(claims, reqs) && RoomInAnyOrder(claims, Elements(reqs))
  {
    var reqSet := Elements(reqs);
    forall r | r in reqSet && r.wanted.Some? && 5000 <= r.wanted.value
      ensures |Automatic(reqSet)| <= |FreeBelow(claims, reqSet, r.wanted.value)|
    {
      if x :| x in Automatic(reqSet) {
        var range := Interval(5000, n);
        var free := FreeBelow(claims, reqSet, r.wanted.value);
        SubsetSize(range, free + ClaimedPorts(claims));
        ClaimedPortsSize(claims);
        ElementsSize(reqs);
        SubsetSize(Automatic(reqSet), reqSet);
      }
    }
  }

  // Explicit ports that are apart and outside the automatic range [5000, 5000 + n) never
  // conflict, whatever the order.
  lemma {:induction false} NoConflictFrom(claims: seq<Claim>, reqs: seq<Request>, n: nat)
    requires FreshKeys(reqs) && ExplicitPortsApart(claims, Elements(reqs))
    requires 5000 + n <= MAX_INT32
    requires ClearOfAutomatic(claims, reqs, n)
    ensures Run(StartState(claims), reqs).conflicts == 0
    ensures GrantedAsAsked(reqs, Run(StartState(claims), reqs).ports, n)
  {
    ClearLeavesRoom(claims, reqs, n);
    AnyOrderHasRoom(claims, reqs);
    ConflictFreeIff(claims, reqs);
    forall i | 0 <= i < |reqs|
      ensures var p := Run(StartState(claims), reqs).ports[i];
              if reqs[i].wanted.Some? then p == reqs[i].wanted.value else InAutomaticRange(p, n)
    {
      GrantedAt(claims, reqs, i);
    }
  }
}
