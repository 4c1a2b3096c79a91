// The proxy's argument for one instance: "connection?auto-iam-authn=..&port=..&private-ip=..".
module InstanceArgs {
  import opened Prelude
  import opened Numerals

  // --- The canonical argument --------------------------------------------------------------

  function Truth(b: bool): string {
    if b then "true" else "false"
  }

  const IAM_KEY := "auto-iam-authn"
  const PORT_KEY := "port"
  const IP_KEY := "private-ip"

  // The params map that updateContainer fills in.
  function Params(inst: Instance, port: int32): map<string, string> {
    map[PORT_KEY := Decimal(port)]
    + (if inst.autoIAMAuthN.Some? then map[IAM_KEY := Truth(inst.autoIAMAuthN.value)] else map[])
    + (if inst.privateIP.Some? then map[IP_KEY := Truth(inst.privateIP.value)] else map[])
  }

  function Pair(params: map<string, string>, k: string): string
    requires k in params
  {
    k + "=" + params[k]
  }

  // The known keys among the given ones, in ascending order.
  function KeyList(keys: set<string>): seq<string> {
    (if IAM_KEY in keys then [IAM_KEY] else [])
    + (if PORT_KEY in keys then [PORT_KEY] else [])
    + (if IP_KEY in keys then [IP_KEY] else [])
  }

  function PairList(params: map<string, string>, ks: seq<string>): (pairs: seq<string>)
    requires forall k :: k in ks ==> k in params
    ensures |pairs| == |ks|
    ensures forall i :: 0 <= i < |ks| ==> pairs[i] == Pair(params, ks[i])
  {
    seq(|ks|, i requires 0 <= i < |ks| => Pair(params, ks[i]))
  }

  function PairsOf(params: map<string, string>, keys: set<string>): seq<string>
    requires keys <= params.Keys
  {
    PairList(params, KeyList(keys))
  }

  function Join(parts: seq<string>, sep: char): string {
    if parts == [] then ""
    else if |parts| == 1 then parts[0]
    else parts[0] + [sep] + Join(parts[1..], sep)
  }

  function InstanceArg(inst: Instance, port: int32): string {
    var params := Params(inst, port);
    inst.connectionString + "?" + Join(PairsOf(params, params.Keys), '&')
  }

  // --- sort.Strings ------------------------------------------------------------------------

  // Go compares strings byte by byte.
  predicate TextLe(a: string, b: string) {
    a == [] || (b != [] && (a[0] < b[0] || (a[0] == b[0] && TextLe(a[1..], b[1..]))))
  }

  lemma {:induction false} TextLeTotal(a: string, b: string)
    ensures TextLe(a, b) || TextLe(b, a)
    ensures TextLe(a, b) && TextLe(b, a) ==> a == b
  {
    if a != [] && b != [] && a[0] == b[0] {
      TextLeTotal(a[1..], b[1..]);
      assert a == [a[0]] + a[1..] && b == [b[0]] + b[1..];
    }
  }

  lemma {:induction false} TextLeTransitive(a: string, b: string, c: string)
    requires TextLe(a, b) && TextLe(b, c)
    ensures TextLe(a, c)
  {
    if a != [] && a[0] == b[0] == c[0] {
      TextLeTransitive(a[1..], b[1..], c[1..]);
    }
  }

  ghost predicate Sorted(s: seq<string>) {
    forall i, j :: 0 <= i < j < |s| ==> TextLe(s[i], s[j])
  }

  lemma {:induction false} SameHead(a: seq<string>, b: seq<string>)
    requires Sorted(a) && Sorted(b) && multiset(a) == multiset(b) && a != []
    ensures b != [] && a[0] == b[0]
  {
    hide TextLe;
    assert a[0] in multiset(b);
    assert b[0] in multiset(a);
    var i :| 0 <= i < |b| && b[i] == a[0];
    var j :| 0 <= j < |a| && a[j] == b[0];
    TextLeTotal(a[0], b[0]);
  }

  // A list of texts has only one sorted arrangement.
  lemma {:induction false} SortedUnique(a: seq<string>, b: seq<string>)
    requires Sorted(a) && Sorted(b) && multiset(a) == multiset(b)
    ensures a == b
  {
    hide TextLe;
    if a == [] {
      assert |multiset(b)| == 0;
    } else {
      SameHead(a, b);
      assert a == [a[0]] + a[1..] && b == [b[0]] + b[1..];
      assert multiset(a[1..]) == multiset(a) - multiset{a[0]};
      assert multiset(b[1..]) == multiset(b) - multiset{b[0]};
      SortedUnique(a[1..], b[1..]);
    }
  }

  // Stands for the library's sort: any sorted rearrangement.
  method Sort(s: seq<string>) returns (r: seq<string>)
    ensures Sorted(r) && multiset(r) == multiset(s)
  {
    hide TextLe, Sorted;
    NothingSorted();
    r := [];
    for i := 0 to |s|
      invariant Sorted(r) && multiset(r) == multiset(s[..i])
    {
      var k := 0;
      while k < |r| && TextLe(r[k], s[i])
        invariant k <= |r|
        invariant forall j :: 0 <= j < k ==> TextLe(r[j], s[i])
      {
        k := k + 1;
      }
      InsertKeepsSorted(r, k, s[i]);
      assert r == r[..k] + r[k..];
      r := r[..k] + [s[i]] + r[k..];
      assert s[..i + 1] == s[..i] + [s[i]];
    }
    assert s[..|s|] == s;
  }

  lemma {:induction false} NothingSorted()
    ensures Sorted([])
  {
  }

  lemma {:induction false} InsertKeepsSorted(r: seq<string>, k: nat, x: string)
    requires Sorted(r) && k <= |r|
    requires forall j :: 0 <= j < k ==> TextLe(r[j], x)
    requires k < |r| ==> !TextLe(r[k], x)
    ensures Sorted(r[..k] + [x] + r[k..])
  {
    if k < |r| {
      TextLeTotal(r[k], x);
      forall j | k < j < |r| ensures TextLe(x, r[j]) {
        TextLeTransitive(x, r[k], r[j]);
      }
    }
  }

  lemma {:induction false} PairsSorted(params: map<string, string>)
    ensures Sorted(PairsOf(params, params.Keys))
  {
    var s := PairsOf(params, params.Keys);
    forall i, j | 0 <= i < j < |s| ensures TextLe(s[i], s[j]) {
      assert s[i][0] == 'a' || (s[i][0] == 'p' && s[i][1..][0] == 'o');
      assert s[j][0] == 'p' && (s[j][1..][0] == 'o' || s[j][1..][0] == 'r');
    }
  }

  // Whatever order the map yields its pairs in, sorting gives the same argument.
  method FormatInstance(inst: Instance, port: int32) returns (arg: string)
    ensures arg == InstanceArg(inst, port)
  {
    var params := Params(inst, port);
    var instArgs: seq<string> := [];
    var rest := params.Keys;
    while rest != {}
      invariant rest <= params.Keys
      invariant multiset(instArgs) == multiset(PairsOf(params, params.Keys - rest))
      decreases rest
    {
      var k :| k in rest;
      assert params.Keys - (rest - {k}) == (params.Keys - rest) + {k};
      OnePairMore(params, params.Keys - rest, k);
      instArgs := instArgs + [Pair(params, k)];
      rest := rest - {k};
    }
    assert params.Keys - {} == params.Keys;
    var sorted := Sort(instArgs);
    PairsSorted(params);
    SortedUnique(sorted, PairsOf(params, params.Keys));
    arg := inst.connectionString + "?" + Join(sorted, '&');
  }

  lemma {:induction false} OnePairMore(params: map<string, string>, keys: set<string>, k: string)
    requires keys <= params.Keys && k in params && k !in keys
    requires k in {IAM_KEY, PORT_KEY, IP_KEY}
    ensures multiset(PairsOf(params, keys + {k})) == multiset(PairsOf(params, keys)) + multiset{Pair(params, k)}
  {
    var iam := if IAM_KEY in keys then [IAM_KEY] else [];
    var port := if PORT_KEY in keys then [PORT_KEY] else [];
    var ip := if IP_KEY in keys then [IP_KEY] else [];
    var before := if k == IAM_KEY then [] else if k == PORT_KEY then iam else iam + port;
    var after := if k == IAM_KEY then port + ip else if k == PORT_KEY then ip else [];
    assert KeyList(keys) == before + after;
    assert KeyList(keys + {k}) == before + [k] + after;
    InsertPair(params, before, k, after);
  }

  lemma {:induction false} InsertPair(params: map<string, string>, a: seq<string>, k: string, b: seq<string>)
    requires k in params && (forall x :: x in a ==> x in params) && (forall x :: x in b ==> x in params)
    ensures multiset(PairList(params, a + [k] + b)) == multiset(PairList(params, a + b)) + multiset{Pair(params, k)}
  {
    assert PairList(params, a + [k] + b) == PairList(params, a) + [Pair(params, k)] + PairList(params, b);
    assert PairList(params, a + b) == PairList(params, a) + PairList(params, b);
  }

  // --- Reading the argument back -----------------------------------------------------------

  function IndexOf(s: string, c: char): (i: nat)
    ensures i <= |s| && c !in s[..i] && (i < |s| ==> s[i] == c)
  {
    if s == [] then 0
    else if s[0] == c then 0
    else
      var i := IndexOf(s[1..], c);
      assert s[..i + 1] == [s[0]] + s[1..][..i];
      i + 1
  }

  function Split(s: string, c: char): seq<string> {
    var i := IndexOf(s, c);
    if i == |s| then [s] else [s[..i]] + Split(s[i + 1..], c)
  }

  // The text before and after the first c.
  function Cut(s: string, c: char): (string, string) {
    var i := IndexOf(s, c);
    if i == |s| then (s, "") else (s[..i], s[i + 1..])
  }

  function ReadPairs(parts: seq<string>): map<string, string> {
    if parts == [] then map[]
    else
      var (k, v) := Cut(parts[|parts| - 1], '=');
      ReadPairs(parts[..|parts| - 1])[k := v]
  }

  datatype Reading = Reading(connectionString: string, port: Option<int>, autoIAMAuthN: Option<bool>, privateIP: Option<bool>)

  function ReadFlag(params: map<string, string>, k: string): Option<bool> {
    if k in params then Some(params[k] == "true") else None
  }

  function ReadParams(connection: string, params: map<string, string>): Reading {
    Reading(connection,
            if "port" in params then Some(ReadDecimal(params["port"])) else None,
            ReadFlag(params, "auto-iam-authn"),
            ReadFlag(params, "private-ip"))
  }

  // How the proxy reads the argument.
  function ReadArg(arg: string): Reading {
    var (connection, query) := Cut(arg, '?');
    ReadParams(connection, ReadPairs(Split(query, '&')))
  }

  lemma {:induction false} IndexOfFirst(a: string, c: char, b: string)
    requires c !in a
    ensures IndexOf(a + [c] + b, c) == |a| && IndexOf(a, c) == |a|
  {
    if a != [] {
      IndexOfFirst(a[1..], c, b);
      assert (a + [c] + b)[1..] == a[1..] + [c] + b;
    }
  }

  lemma {:induction false} CutAtFirst(a: string, c: char, b: string)
    requires c !in a
    ensures Cut(a + [c] + b, c) == (a, b)
  {
    IndexOfFirst(a, c, b);
    assert (a + [c] + b)[..|a|] == a && (a + [c] + b)[|a| + 1..] == b;
  }

  lemma {:induction false} SplitJoin(parts: seq<string>, c: char)
    requires parts != [] && forall i :: 0 <= i < |parts| ==> c !in parts[i]
    ensures Split(Join(parts, c), c) == parts
  {
    if |parts| == 1 {
      IndexOfFirst(parts[0], c, "");
    } else {
      var rest := Join(parts[1..], c);
      SplitJoin(parts[1..], c);
      IndexOfFirst(parts[0], c, rest);
      var s := parts[0] + [c] + rest;
      assert s[..|parts[0]|] == parts[0] && s[|parts[0]| + 1..] == rest;
    }
  }

  lemma {:induction false} PairReadsBack(params: map<string, string>, k: string)
    requires k in params && '=' !in k && '&' !in k && '&' !in params[k]
    ensures Cut(Pair(params, k), '=') == (k, params[k]) && '&' !in Pair(params, k)
  {
    CutAtFirst(k, '=', params[k]);
  }

  lemma {:induction false} ReadLastPair(parts: seq<string>, params: map<string, string>, k: string)
    requires k in params && '=' !in k && '&' !in k && '&' !in params[k]
    ensures ReadPairs(parts + [Pair(params, k)]) == ReadPairs(parts)[k := params[k]]
  {
    PairReadsBack(params, k);
    assert (parts + [Pair(params, k)])[..|parts|] == parts;
  }

  lemma {:induction false} PairListReadsBack(params: map<string, string>, ks: seq<string>)
    requires forall k :: k in ks ==> k in params && '=' !in k && '&' !in k && '&' !in params[k]
    ensures ReadPairs(PairList(params, ks)) == map k | k in ks :: params[k]
  {
    if ks != [] {
      var rest, k := ks[..|ks| - 1], ks[|ks| - 1];
      PairListReadsBack(params, rest);
      ReadLastPair(PairList(params, rest), params, k);
      hide ReadPairs, Pair;
      assert ks == rest + [k];
      assert PairList(params, ks) == PairList(params, rest) + [Pair(params, k)];
    }
  }

  lemma {:induction false} PairsArePlain(params: map<string, string>, ks: seq<string>)
    requires forall k :: k in ks ==> k in params && '=' !in k && '&' !in k && '&' !in params[k]
    ensures forall i :: 0 <= i < |ks| ==> '&' !in PairList(params, ks)[i]
  {
    forall i | 0 <= i < |ks| ensures '&' !in PairList(params, ks)[i] {
      PairReadsBack(params, ks[i]);
    }
  }

  lemma {:induction false} KeysArePlain()
    ensures '=' !in IAM_KEY && '&' !in IAM_KEY
    ensures '=' !in PORT_KEY && '&' !in PORT_KEY
    ensures '=' !in IP_KEY && '&' !in IP_KEY
  {
  }

  lemma {:induction false} ParamsFacts(inst: Instance, port: int32)
    ensures var params := Params(inst, port);
            && Elements(KeyList(params.Keys)) == params.Keys && PORT_KEY in params
            && forall k :: k in params ==> '=' !in k && '&' !in k && '&' !in params[k]
  {
    KeysArePlain();
    DecimalIsPlain(port);
  }

  lemma {:induction false} ParamsReadBack(inst: Instance, port: int32)
    ensures var params := Params(inst, port);
            ReadPairs(Split(Join(PairsOf(params, params.Keys), '&'), '&')) == params
  {
    var params := Params(inst, port);
    ParamsFacts(inst, port);
    QueryReadsBack(params, KeyList(params.Keys));
  }

  lemma {:induction false} QueryReadsBack(params: map<string, string>, ks: seq<string>)
    requires Elements(ks) == params.Keys && ks != []
    requires forall k :: k in params ==> '=' !in k && '&' !in k && '&' !in params[k]
    ensures ReadPairs(Split(Join(PairList(params, ks), '&'), '&')) == params
  {
    forall k ensures k in ks <==> k in params {
      assert k in ks <==> k in Elements(ks);
    }
    PairListReadsBack(params, ks);
    PairsArePlain(params, ks);
    assert (map k | k in ks :: params[k]) == params;
    SplitJoin(PairList(params, ks), '&');
  }

  lemma {:induction false} PlainConnectionReadsBack(inst: Instance, port: int32)
    requires '?' !in inst.connectionString
    ensures ReadArg(InstanceArg(inst, port)) ==
            Reading(inst.connectionString, Some(port), inst.autoIAMAuthN, inst.privateIP)
  {
    var params := Params(inst, port);
    CutAtFirst(inst.connectionString, '?', Join(PairsOf(params, params.Keys), '&'));
    ParamsReadBack(inst, port);
    ParamsSayInstance(inst, port);
  }

  lemma {:induction false} ParamsSayInstance(inst: Instance, port: int32)
    ensures ReadParams(inst.connectionString, Params(inst, port)) ==
            Reading(inst.connectionString, Some(port), inst.autoIAMAuthN, inst.privateIP)
  {
    DecimalReadsBack(port);
    assert forall b: bool :: Truth(b) == "true" <==> b;
  }

  // The argument says what it was made from exactly when the connection string has no '?'.
  lemma {:induction false} ArgReadsBackIff(inst: Instance, port: int32)
    ensures ReadArg(InstanceArg(inst, port)) ==
            Reading(inst.connectionString, Some(port), inst.autoIAMAuthN, inst.privateIP)
            <==> '?' !in inst.connectionString
  {
    var conn := inst.connectionString;
    if '?' in conn {
      assert '?' !in Cut(InstanceArg(inst, port), '?').0 by {
        var i :| 0 <= i < |conn| && conn[i] == '?';
        assert InstanceArg(inst, port)[i] == '?';
      }
    } else {
      PlainConnectionReadsBack(inst, port);
    }
  }

  // How a flag that is given is spelt before the port, and how one after it.
  function LoginText(inst: Instance): string {
    if inst.autoIAMAuthN.None? then "" else if inst.autoIAMAuthN.value then "auto-iam-authn=true&" else "auto-iam-authn=false&"
  }

  function AddressText(inst: Instance): string {
    if inst.privateIP.None? then "" else if inst.privateIP.value then "&private-ip=true" else "&private-ip=false"
  }

  // The argument letter by letter.
  lemma {:induction false} InstanceArgSpells(inst: Instance, port: int32)
    ensures InstanceArg(inst, port) ==
            inst.connectionString + "?" + (LoginText(inst) + ("port=" + Decimal(port)) + AddressText(inst))
  {
    var params := Params(inst, port);
    var iam := if inst.autoIAMAuthN.None? then [] else [Pair(params, IAM_KEY)];
    var ip := if inst.privateIP.None? then [] else [Pair(params, IP_KEY)];
    PairsOfParams(inst, port);
    IamPair(inst, port);
    IpPair(inst, port);
    PortPair(inst, port);
    JoinMiddle(iam, Pair(params, PORT_KEY), ip, '&');
    hide Params, PairsOf, Decimal, Pair, LoginText, AddressText, Join;
  }

  lemma {:induction false} PairsOfParams(inst: Instance, port: int32)
    ensures var params := Params(inst, port);
            PairsOf(params, params.Keys) ==
            (if inst.autoIAMAuthN.None? then [] else [Pair(params, IAM_KEY)]) + [Pair(params, PORT_KEY)]
            + (if inst.privateIP.None? then [] else [Pair(params, IP_KEY)])
  {
    hide Decimal;
  }

  lemma {:induction false} IamPair(inst: Instance, port: int32)
    ensures LoginText(inst) == if inst.autoIAMAuthN.None? then "" else Pair(Params(inst, port), IAM_KEY) + ['&']
  {
    hide Decimal;
  }

  lemma {:induction false} IpPair(inst: Instance, port: int32)
    ensures AddressText(inst) == if inst.privateIP.None? then "" else ['&'] + Pair(Params(inst, port), IP_KEY)
  {
    hide Decimal;
  }

  lemma {:induction false} PortPair(inst: Instance, port: int32)
    ensures Pair(Params(inst, port), PORT_KEY) == "port=" + Decimal(port)
  {
    hide Decimal;
  }

  lemma {:induction false} JoinMiddle(a: seq<string>, m: string, b: seq<string>, sep: char)
    requires |a| <= 1 && |b| <= 1
    ensures Join(a + [m] + b, sep) == (if a == [] then "" else a[0] + [sep]) + m + (if b == [] then "" else [sep] + b[0])
  {
    var rest := [m] + b;
    assert Join(rest, sep) == m + (if b == [] then "" else [sep] + b[0]) by {
      if b == [] {
        assert rest == [m];
      } else {
        assert rest[1..] == b;
      }
    }
    if a == [] {
      assert a + [m] + b == rest;
    } else {
      assert (a + [m] + b)[1..] == rest;
    }
  }
}
