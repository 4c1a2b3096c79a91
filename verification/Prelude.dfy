// Types shared by every part of the model.
module Prelude {

  datatype Option<+T> = None | Some(value: T)

  // Go's int32: ports and the two port counters have this type.
  const MIN_INT32: int := -0x8000_0000
  const MAX_INT32: int := 0x7fff_ffff
  const INT32_VALUES: int := 0x1_0000_0000

  type int32 = x: int | MIN_INT32 <= x <= MAX_INT32

  // A Kubernetes namespaced name.
  datatype NamespacedName = NamespacedName(namespace: string, name: string)

  // The two error codes a configuration error may carry.
  datatype ErrorCode = PortConflict | EnvVarConflict

  // One entry of ConfigError.details: the code, the message, and the AuthProxyWorkload at fault.
  datatype ErrorDetail = ErrorDetail(code: ErrorCode, description: string, workload: NamespacedName)

  // One Cloud SQL instance of an AuthProxyWorkload.
  datatype Instance = Instance(
    connectionString: string,
    port: Option<int32>,
    autoIAMAuthN: Option<bool>,
    privateIP: Option<bool>,
    portEnvName: string,
    hostEnvName: string)

  // The first position from i on whose element is a hit, or |s|.
  function FirstWhere<T>(s: seq<T>, hit: T -> bool, i: nat): (r: nat)
    requires i <= |s|
    ensures i <= r <= |s|
    ensures forall j :: i <= j < r ==> !hit(s[j])
    ensures r < |s| ==> hit(s[r])
    decreases |s| - i
  {
    if i == |s| || hit(s[i]) then i else FirstWhere(s, hit, i + 1)
  }

  predicate Distinct<T(==)>(s: seq<T>) {
    forall i, j :: 0 <= i < j < |s| ==> s[i] != s[j]
  }

  function Elements<T(==)>(s: seq<T>): set<T> {
    set x | x in s
  }

  lemma {:induction false} ElementsConcat<T>(a: seq<T>, b: seq<T>)
    ensures Elements(a + b) == Elements(a) + Elements(b)
  {
  }

  lemma {:induction false} ElementsSize<T>(s: seq<T>)
    ensures |Elements(s)| <= |s|
    ensures Distinct(s) ==> |Elements(s)| == |s|
  {
    if s == [] {
    } else {
      var rest := s[..|s| - 1];
      ElementsSize(rest);
      assert s == rest + [s[|s| - 1]];
      assert Elements(s) == Elements(rest) + {s[|s| - 1]};
    }
  }

  lemma {:induction false} SubsetSize<T>(a: set<T>, b: set<T>)
    requires a <= b
    ensures |a| <= |b|
  {
    if a != {} {
      var x :| x in a;
      SubsetSize(a - {x}, b - {x});
    }
  }

  // A one-to-one image fits only into a set at least as large.
  lemma {:induction false} InjectionSize<A, B>(a: set<A>, b: set<B>, f: A -> B)
    requires forall x :: x in a ==> f(x) in b
    requires forall x, y :: x in a && y in a && x != y ==> f(x) != f(y)
    ensures |a| <= |b|
  {
    if a != {} {
      var x :| x in a;
      InjectionSize(a - {x}, b - {f(x)}, f);
    }
  }

  // An image covers only a set at most as large.
  lemma {:induction false} CoverSize<A, B>(a: set<A>, b: set<B>, f: A -> B)
    requires forall y :: y in b ==> exists x :: x in a && f(x) == y
    ensures |b| <= |a|
  {
    if a != {} {
      var x :| x in a;
      forall y | y in b - {f(x)} ensures exists z :: z in a - {x} && f(z) == y {
        var z :| z in a && f(z) == y;
      }
      CoverSize(a - {x}, b - {f(x)}, f);
    }
  }
}
