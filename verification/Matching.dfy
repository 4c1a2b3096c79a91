// Which AuthProxyWorkloads apply to a pod: the owners of the pod, and the selectors.
module Matching {
  import opened Prelude
  import opened Api

  // --- The cluster, as far as the webhook reads it -----------------------------------------

  // What a Get request names.
  datatype Ref = Ref(apiVersion: string, kind: string, namespace: string, name: string)

  datatype Cluster = Cluster(objects: map<Ref, ObjectMeta>, broken: set<Ref>)

  // The outcome of a Get: the object, a not-found error, or any other error.
  datatype Fetch = Found(obj: ObjectMeta) | Missing | Failed

  function Get(cluster: Cluster, ref: Ref): Fetch {
    if ref in cluster.broken then Failed
    else if ref in cluster.objects then Found(cluster.objects[ref])
    else Missing
  }

  // schema.ParseKindArg: the kind is the text before the first dot.
  function BaseKind(kind: string): string {
    if kind == [] || kind[0] == '.' then [] else [kind[0]] + BaseKind(kind[1..])
  }

  // The API version that WorkloadForKind's value of a kind is read under.
  function TypedVersion(kind: string): Option<string> {
    match kind
    case "Deployment" => Some("apps/v1")
    case "Pod" => Some("v1")
    case "StatefulSet" => Some("apps/v1")
    case "Job" => Some("batch/v1")
    case "CronJob" => Some("batch/v1")
    case "DaemonSet" => Some("apps/v1")
    case "ReplicaSet" => Some("apps/v1")
    case _ => None
  }

  // WorkloadForKind succeeds.
  predicate Supported(kind: string) {
    TypedVersion(BaseKind(kind)).Some?
  }

  function RefOf(namespace: string, r: OwnerRef): Ref {
    var version := TypedVersion(BaseKind(r.kind));
    if version.Some? then Ref(version.value, BaseKind(r.kind), namespace, r.name)
    else Ref(r.apiVersion, r.kind, namespace, r.name)
  }

  function FetchOwner(cluster: Cluster, obj: ObjectMeta, r: OwnerRef): Fetch {
    Get(cluster, RefOf(obj.namespace, r))
  }

  lemma {:induction false} BaseKindIs(kind: string, k: string)
    requires '.' !in k
    ensures BaseKind(kind) == k <==> kind == k || k + "." <= kind
    decreases kind
  {
    if kind != [] && kind[0] != '.' {
      if k != [] && kind[0] == k[0] {
        BaseKindIs(kind[1..], k[1..]);
        assert k == [k[0]] + k[1..] && kind == [kind[0]] + kind[1..];
        assert k + "." == [k[0]] + (k[1..] + ".");
      } else {
        assert kind[0] == BaseKind(kind)[0];
      }
    } else if kind != [] {
      assert "." <= kind;
    }
  }

  lemma {:induction false} TypedKinds(k: string)
    ensures TypedVersion(k).Some? <==>
            k in {"Deployment", "Pod", "StatefulSet", "Job", "CronJob", "DaemonSet", "ReplicaSet"}
    ensures TypedVersion(k).Some? ==> '.' !in k
  {
  }

  // The owners that count are of seven kinds, with or without a group after a dot, ...
  lemma {:induction false} SupportedKinds(kind: string)
    ensures Supported(kind) <==>
            exists k :: k in {"Deployment", "Pod", "StatefulSet", "Job", "CronJob", "DaemonSet", "ReplicaSet"} &&
                        (kind == k || k + "." <= kind)
  {
    var kinds := {"Deployment", "Pod", "StatefulSet", "Job", "CronJob", "DaemonSet", "ReplicaSet"};
    TypedKinds(BaseKind(kind));
    hide TypedVersion, BaseKind;
    forall k | k in kinds ensures BaseKind(kind) == k <==> kind == k || k + "." <= kind {
      TypedKinds(k);
      BaseKindIs(kind, k);
    }
  }

  // ... and each owner is looked up by its name in the namespace of the object it owns, under
  // the API version of its kind, or under the one that the reference gives.
  lemma {:induction false} OwnerRequested(cluster: Cluster, obj: ObjectMeta, r: OwnerRef, k: string)
    requires '.' !in k && (r.kind == k || k + "." <= r.kind)
    ensures FetchOwner(cluster, obj, r) ==
            if k in {"Deployment", "StatefulSet", "DaemonSet", "ReplicaSet"} then
              Get(cluster, Ref("apps/v1", k, obj.namespace, r.name))
            else if k in {"Job", "CronJob"} then Get(cluster, Ref("batch/v1", k, obj.namespace, r.name))
            else if k == "Pod" then Get(cluster, Ref("v1", k, obj.namespace, r.name))
            else Get(cluster, Ref(r.apiVersion, r.kind, obj.namespace, r.name))
  {
    BaseKindIs(r.kind, k);
    hide BaseKind, Get;
  }

  // --- Transitive owners -------------------------------------------------------------------

  // p leads from object through existing owners, one reference at a time.
  ghost predicate IsPath(cluster: Cluster, obj: ObjectMeta, p: seq<OwnerRef>)
    decreases |p|
  {
    p == [] ||
    (p[0] in obj.owners && FetchOwner(cluster, obj, p[0]).Found? &&
     IsPath(cluster, FetchOwner(cluster, obj, p[0]).obj, p[1..]))
  }

  ghost function EndOf(cluster: Cluster, obj: ObjectMeta, p: seq<OwnerRef>): ObjectMeta
    requires IsPath(cluster, obj, p)
    decreases |p|
  {
    if p == [] then obj else EndOf(cluster, FetchOwner(cluster, obj, p[0]).obj, p[1..])
  }

  // w is an owner of object, or an owner's owner and so on, of a supported kind.  The kinds
  // on the way to it may be unsupported.
  ghost predicate OwnedBy(cluster: Cluster, obj: ObjectMeta, w: ObjectMeta) {
    exists p :: LeadsTo(cluster, obj, p, w)
  }

  ghost predicate LeadsTo(cluster: Cluster, obj: ObjectMeta, p: seq<OwnerRef>, w: ObjectMeta) {
    p != [] && IsPath(cluster, obj, p) && EndOf(cluster, obj, p) == w && Supported(p[|p| - 1].kind)
  }

  // Some transitive owner cannot be read, other than by not existing.
  ghost predicate Unreadable(cluster: Cluster, obj: ObjectMeta) {
    exists p, r :: FailsAt(cluster, obj, p, r)
  }

  ghost predicate FailsAt(cluster: Cluster, obj: ObjectMeta, p: seq<OwnerRef>, r: OwnerRef) {
    && IsPath(cluster, obj, p)
    && r in EndOf(cluster, obj, p).owners
    && FetchOwner(cluster, EndOf(cluster, obj, p), r).Failed?
  }

  // What one owner reference contributes.
  ghost predicate Contributes(cluster: Cluster, obj: ObjectMeta, r: OwnerRef, w: ObjectMeta) {
    var f := FetchOwner(cluster, obj, r);
    f.Found? && ((Supported(r.kind) && w == f.obj) || OwnedBy(cluster, f.obj, w))
  }

  lemma {:induction false} PathHead(cluster: Cluster, obj: ObjectMeta, r: OwnerRef, p: seq<OwnerRef>)
    requires r in obj.owners && FetchOwner(cluster, obj, r).Found?
    requires IsPath(cluster, FetchOwner(cluster, obj, r).obj, p)
    ensures IsPath(cluster, obj, [r] + p)
    ensures EndOf(cluster, obj, [r] + p) == EndOf(cluster, FetchOwner(cluster, obj, r).obj, p)
  {
    assert ([r] + p)[1..] == p;
  }

  lemma {:induction false} OwnedByStep(cluster: Cluster, obj: ObjectMeta, w: ObjectMeta)
    ensures OwnedBy(cluster, obj, w) <==> exists r :: r in obj.owners && Contributes(cluster, obj, r, w)
  {
    if OwnedBy(cluster, obj, w) {
      var p :| LeadsTo(cluster, obj, p, w);
      var f := FetchOwner(cluster, obj, p[0]);
      if |p| == 1 {
        assert p[1..] == [];
        assert EndOf(cluster, f.obj, []) == w;
      } else {
        assert LeadsTo(cluster, f.obj, p[1..], w);
      }
      assert Contributes(cluster, obj, p[0], w);
    }
    if r :| r in obj.owners && Contributes(cluster, obj, r, w) {
      var f := FetchOwner(cluster, obj, r);
      if Supported(r.kind) && w == f.obj {
        PathHead(cluster, obj, r, []);
        assert LeadsTo(cluster, obj, [r] + [], w);
      } else {
        var p :| LeadsTo(cluster, f.obj, p, w);
        PathHead(cluster, obj, r, p);
        assert LeadsTo(cluster, obj, [r] + p, w);
      }
    }
  }

  ghost predicate FailsThrough(cluster: Cluster, obj: ObjectMeta, r: OwnerRef) {
    var f := FetchOwner(cluster, obj, r);
    f.Failed? || (f.Found? && Unreadable(cluster, f.obj))
  }

  lemma {:induction false} UnreadableStep(cluster: Cluster, obj: ObjectMeta)
    ensures Unreadable(cluster, obj) <==> exists r :: r in obj.owners && FailsThrough(cluster, obj, r)
  {
    if Unreadable(cluster, obj) {
      var p, r :| FailsAt(cluster, obj, p, r);
      if p == [] {
        assert FailsThrough(cluster, obj, r);
      } else {
        assert FailsAt(cluster, FetchOwner(cluster, obj, p[0]).obj, p[1..], r);
        assert FailsThrough(cluster, obj, p[0]);
      }
    }
    if r :| r in obj.owners && FailsThrough(cluster, obj, r) {
      var f := FetchOwner(cluster, obj, r);
      if f.Failed? {
        assert FailsAt(cluster, obj, [], r);
      } else {
        var p, q :| FailsAt(cluster, f.obj, p, q);
        assert ([r] + p)[1..] == p;
        assert FailsAt(cluster, obj, [r] + p, q);
      }
    }
  }

  // --- Termination of the recursion --------------------------------------------------------

  // Every chain of owners has fewer than depth links.
  ghost predicate Shallow(cluster: Cluster, obj: ObjectMeta, depth: nat)
    decreases depth
  {
    depth > 0 && forall r :: r in obj.owners && FetchOwner(cluster, obj, r).Found? ==>
                   Shallow(cluster, FetchOwner(cluster, obj, r).obj, depth - 1)
  }

  // The references that a path fetches.
  ghost function RefsAlong(cluster: Cluster, obj: ObjectMeta, p: seq<OwnerRef>): (refs: seq<Ref>)
    requires IsPath(cluster, obj, p)
    ensures |refs| == |p|
    decreases |p|
  {
    if p == [] then []
    else [RefOf(obj.namespace, p[0])] + RefsAlong(cluster, FetchOwner(cluster, obj, p[0]).obj, p[1..])
  }

  // No chain of owners meets the same object twice.
  ghost predicate Acyclic(cluster: Cluster, obj: ObjectMeta) {
    forall p :: IsPath(cluster, obj, p) ==> Distinct(RefsAlong(cluster, obj, p))
  }

  lemma {:induction false} DeepHasLongPath(cluster: Cluster, obj: ObjectMeta, depth: nat) returns (p: seq<OwnerRef>)
    requires !Shallow(cluster, obj, depth)
    ensures |p| == depth && IsPath(cluster, obj, p)
    decreases depth
  {
    if depth == 0 {
      p := [];
    } else {
      var r :| r in obj.owners && FetchOwner(cluster, obj, r).Found?
               && !Shallow(cluster, FetchOwner(cluster, obj, r).obj, depth - 1);
      var q := DeepHasLongPath(cluster, FetchOwner(cluster, obj, r).obj, depth - 1);
      p := [r] + q;
      assert p[1..] == q;
    }
  }

  lemma {:induction false} RefsExist(cluster: Cluster, obj: ObjectMeta, p: seq<OwnerRef>)
    requires IsPath(cluster, obj, p)
    ensures forall ref :: ref in RefsAlong(cluster, obj, p) ==> ref in cluster.objects
    decreases |p|
  {
    if p != [] {
      RefsExist(cluster, FetchOwner(cluster, obj, p[0]).obj, p[1..]);
    }
  }

  lemma {:induction false} PathShallow(cluster: Cluster, obj: ObjectMeta, p: seq<OwnerRef>, depth: nat)
    requires IsPath(cluster, obj, p) && Shallow(cluster, obj, depth)
    ensures |p| < depth && Shallow(cluster, EndOf(cluster, obj, p), depth - |p|)
    decreases |p|
  {
    if p != [] {
      PathShallow(cluster, FetchOwner(cluster, obj, p[0]).obj, p[1..], depth - 1);
    }
  }

  lemma {:induction false} NoLoops(cluster: Cluster, obj: ObjectMeta, p: seq<OwnerRef>, depth: nat)
    requires p != [] && IsPath(cluster, obj, p) && EndOf(cluster, obj, p) == obj
    ensures !Shallow(cluster, obj, depth)
    decreases depth
  {
    if Shallow(cluster, obj, depth) {
      PathShallow(cluster, obj, p, depth);
      NoLoops(cluster, obj, p, depth - |p|);
    }
  }

  // A path splits at any position; the object there is the one the reference before it names.
  lemma {:induction false} PathSplits(cluster: Cluster, obj: ObjectMeta, p: seq<OwnerRef>, n: nat)
    requires IsPath(cluster, obj, p) && n <= |p|
    ensures IsPath(cluster, obj, p[..n])
    ensures IsPath(cluster, EndOf(cluster, obj, p[..n]), p[n..])
    ensures EndOf(cluster, EndOf(cluster, obj, p[..n]), p[n..]) == EndOf(cluster, obj, p)
    ensures n > 0 ==> Get(cluster, RefsAlong(cluster, obj, p)[n - 1]) == Found(EndOf(cluster, obj, p[..n]))
    decreases n
  {
    if n == 0 {
      assert p[..0] == [] && p[0..] == p;
    } else {
      PathSplits(cluster, FetchOwner(cluster, obj, p[0]).obj, p[1..], n - 1);
      assert p[..n][1..] == p[1..][..n - 1];
      assert p[1..][n - 1..] == p[n..];
      if n == 1 {
        assert p[1..][..0] == [];
      }
    }
  }

  lemma {:induction false} RepeatGivesLoop(cluster: Cluster, obj: ObjectMeta, p: seq<OwnerRef>, i: nat, j: nat, depth: nat)
    requires IsPath(cluster, obj, p) && i < j < |p|
    requires RefsAlong(cluster, obj, p)[i] == RefsAlong(cluster, obj, p)[j]
    ensures !Shallow(cluster, obj, depth)
  {
    hide IsPath, EndOf, RefsAlong, Shallow, Get;
    PathSplits(cluster, obj, p, i + 1);
    PathSplits(cluster, obj, p, j + 1);
    var o := EndOf(cluster, obj, p[..i + 1]);
    PathSplits(cluster, obj, p[..j + 1], i + 1);
    assert p[..j + 1][..i + 1] == p[..i + 1];
    var loop := p[..j + 1][i + 1..];
    assert EndOf(cluster, o, loop) == o;
    if Shallow(cluster, obj, depth) {
      PathShallow(cluster, obj, p[..i + 1], depth);
      NoLoops(cluster, o, loop, depth - (i + 1));
    }
  }

  lemma {:induction false} ShallowIsAcyclic(cluster: Cluster, obj: ObjectMeta, depth: nat)
    requires Shallow(cluster, obj, depth)
    ensures Acyclic(cluster, obj)
  {
    forall p | IsPath(cluster, obj, p) ensures Distinct(RefsAlong(cluster, obj, p)) {
      var refs := RefsAlong(cluster, obj, p);
      forall i, j | 0 <= i < j < |refs| ensures refs[i] != refs[j] {
        if refs[i] == refs[j] {
          RepeatGivesLoop(cluster, obj, p, i, j, depth);
        }
      }
    }
  }

  lemma {:induction false} AcyclicIsShallow(cluster: Cluster, obj: ObjectMeta)
    requires Acyclic(cluster, obj)
    ensures Shallow(cluster, obj, |cluster.objects| + 1)
  {
    if !Shallow(cluster, obj, |cluster.objects| + 1) {
      var p := DeepHasLongPath(cluster, obj, |cluster.objects| + 1);
      var refs := RefsAlong(cluster, obj, p);
      RefsExist(cluster, obj, p);
      ElementsSize(refs);
      SubsetSize(Elements(refs), cluster.objects.Keys);
    }
  }

  ghost predicate HasDepth(cluster: Cluster, obj: ObjectMeta) {
    exists depth: nat :: Shallow(cluster, obj, depth)
  }

  // The recursion over owners has a depth bound exactly when no chain of owners is circular.
  lemma {:induction false} BoundedIffAcyclic(cluster: Cluster, obj: ObjectMeta)
    ensures HasDepth(cluster, obj) <==> Acyclic(cluster, obj)
  {
    if Acyclic(cluster, obj) {
      AcyclicIsShallow(cluster, obj);
    } else if HasDepth(cluster, obj) {
      var depth: nat :| Shallow(cluster, obj, depth);
      ShallowIsAcyclic(cluster, obj, depth);
    }
  }

  // --- listOwners --------------------------------------------------------------------------

  // The object that stands in the list for an owner that does not exist.
  const EMPTY_WORKLOAD := ObjectMeta("", "", "", map[], [])

  datatype OwnersResult = Owners(list: seq<ObjectMeta>) | OwnersFailed

  method ListOwners(cluster: Cluster, obj: ObjectMeta, ghost depth: nat) returns (r: OwnersResult)
    requires Shallow(cluster, obj, depth)
    ensures r.OwnersFailed? <==> Unreadable(cluster, obj)
    ensures r.Owners? ==> forall w :: w in r.list ==> w == EMPTY_WORKLOAD || OwnedBy(cluster, obj, w)
    ensures r.Owners? ==> forall w :: OwnedBy(cluster, obj, w) ==> w in r.list
    decreases depth
  {
    hide OwnedBy, Unreadable;
    UnreadableStep(cluster, obj);
    var owners := [];
    for i := 0 to |obj.owners|
      invariant forall k :: 0 <= k < i ==> !FailsThrough(cluster, obj, obj.owners[k])
      invariant forall w :: w in owners ==>
                  w == EMPTY_WORKLOAD || exists k :: 0 <= k < i && Contributes(cluster, obj, obj.owners[k], w)
      invariant forall k, w :: 0 <= k < i && Contributes(cluster, obj, obj.owners[k], w) ==> w in owners
    {
      var ref := obj.owners[i];
      var supported := Supported(ref.kind);
      match FetchOwner(cluster, obj, ref)
      case Missing =>
        // The workload appended for a missing owner stays empty.
        if supported {
          owners := owners + [EMPTY_WORKLOAD];
        }
      case Failed =>
        assert FailsThrough(cluster, obj, ref);
        return OwnersFailed;
      case Found(owner) =>
        var rest := ListOwners(cluster, owner, depth - 1);
        if rest.OwnersFailed? {
          assert FailsThrough(cluster, obj, ref);
          return OwnersFailed;
        }
        owners := owners + (if supported then [owner] else []) + rest.list;
    }
    r := Owners(owners);
    forall w ensures OwnedBy(cluster, obj, w) <==> exists r :: r in obj.owners && Contributes(cluster, obj, r, w) {
      OwnedByStep(cluster, obj, w);
    }
  }

  // --- Selectors ---------------------------------------------------------------------------

  predicate Satisfies(labels: Labels, r: Requirement) {
    match r
    case In(key, values) => key in labels && labels[key] in values
    case NotIn(key, values) => key !in labels || labels[key] !in values
    case Exists(key) => key in labels
    case DoesNotExist(key) => key !in labels
  }

  predicate LabelsMatch(labels: Labels, s: LabelSelector) {
    s.Absent? || (s.Requirements? && forall r :: r in s.all ==> Satisfies(labels, r))
  }

  // In and NotIn of one key and set are complements, Exists and DoesNotExist likewise; a label
  // is in a set exactly if its value is, and a missing label is in none.
  lemma {:induction false} RequirementLaws(labels: Labels, key: string, value: string, values: set<string>)
    ensures Satisfies(labels, NotIn(key, values)) <==> !Satisfies(labels, In(key, values))
    ensures Satisfies(labels, DoesNotExist(key)) <==> !Satisfies(labels, Exists(key))
    ensures Satisfies(labels[key := value], In(key, values)) <==> value in values
    ensures Satisfies(labels[key := value], Exists(key))
    ensures !Satisfies(labels - {key}, In(key, values)) && !Satisfies(labels - {key}, Exists(key))
  {
  }

  // An absent selector matches all labels and a malformed one none; a further requirement
  // narrows a selector by just what it demands.
  lemma {:induction false} SelectorLaws(labels: Labels, rs: seq<Requirement>, r: Requirement)
    ensures LabelsMatch(labels, Absent) && !LabelsMatch(labels, Malformed) && LabelsMatch(labels, Requirements([]))
    ensures LabelsMatch(labels, Requirements(rs + [r])) <==> LabelsMatch(labels, Requirements(rs)) && Satisfies(labels, r)
  {
    assert r in rs + [r];
  }

  // workloadMatches.
  predicate WorkloadMatches(wl: ObjectMeta, selector: WorkloadSelector, ns: string) {
    && (selector.kind == "" || wl.kind == selector.kind)
    && (selector.name == "" || wl.name == selector.name)
    && (ns == "" || wl.namespace == ns)
    && LabelsMatch(wl.labels, selector.labels)
  }

  // A workload that stands for a missing owner matches nothing that lives in a namespace.
  lemma {:induction false} MissingOwnersNeverMatch(p: AuthProxyWorkload)
    requires p.id.namespace != ""
    ensures !WorkloadMatches(EMPTY_WORKLOAD, p.selector, p.id.namespace)
  {
  }

  // --- FindMatchingAuthProxyWorkloads ------------------------------------------------------

  predicate Selects(p: AuthProxyWorkload, wl: ObjectMeta) {
    WorkloadMatches(wl, p.selector, p.id.namespace) && !p.deleting
  }

  // In the workload's namespace, and no other kind, no other name and no labels that it lacks.
  ghost predicate Agrees(p: AuthProxyWorkload, w: ObjectMeta) {
    && p.id.namespace == w.namespace
    && (p.selector.kind == "" || p.selector.kind == w.kind)
    && (p.selector.name == "" || p.selector.name == w.name)
    && LabelsMatch(w.labels, p.selector.labels)
  }

  ghost predicate AgreesWithSome(p: AuthProxyWorkload, ws: seq<ObjectMeta>) {
    exists w :: w in ws && Agrees(p, w)
  }

  method FilterMatching(pl: seq<AuthProxyWorkload>, wl: ObjectMeta) returns (matching: seq<AuthProxyWorkload>)
    ensures forall p :: p in matching <==> p in pl && Selects(p, wl)
    ensures forall p :: p in matching <==>
              && p in pl && !p.deleting
              && (p.id.namespace == "" || p.id.namespace == wl.namespace)
              && (p.selector.kind == "" || p.selector.kind == wl.kind)
              && (p.selector.name == "" || p.selector.name == wl.name)
              && LabelsMatch(wl.labels, p.selector.labels)
  {
    matching := [];
    for i := 0 to |pl|
      invariant forall p :: p in matching <==> p in pl[..i] && Selects(p, wl)
    {
      if WorkloadMatches(wl, pl[i].selector, pl[i].id.namespace) {
        if !pl[i].deleting {
          matching := matching + [pl[i]];
        }
      }
    }
    assert pl[..|pl|] == pl;
  }

  // What a list request for one namespace returns; the empty namespace asks for all of them.
  // Resources are named, and namespaces have no '/' in their names.
  ghost predicate IsListing(pl: seq<AuthProxyWorkload>, ns: string) {
    && (forall i :: 0 <= i < |pl| ==> IsResourceName(pl[i].id) && (ns == "" || pl[i].id.namespace == ns))
    && IdsDistinct(pl)
  }

  predicate IsResourceName(id: NamespacedName) {
    id.namespace != "" && '/' !in id.namespace && id.name != ""
  }

  function MapKey(id: NamespacedName): string {
    id.namespace + "/" + id.name
  }

  lemma {:induction false} MapKeyInjective(a: NamespacedName, b: NamespacedName)
    requires IsResourceName(a) && IsResourceName(b) && MapKey(a) == MapKey(b)
    ensures a == b
  {
    assert MapKey(a)[|a.namespace|] == '/' && MapKey(b)[|b.namespace|] == '/';
    assert |a.namespace| == |b.namespace|;
    var n := |a.namespace| + 1;
    assert MapKey(a)[..n - 1] == a.namespace && MapKey(b)[..n - 1] == b.namespace;
    assert MapKey(a)[n..] == a.name && MapKey(b)[n..] == b.name;
  }

  ghost predicate KeysKept(wls: seq<AuthProxyWorkload>, found: seq<AuthProxyWorkload>) {
    forall p :: p in wls ==> exists q :: q in found && MapKey(q.id) == MapKey(p.id)
  }

  ghost predicate SelectedBySome(p: AuthProxyWorkload, wl: ObjectMeta, owners: seq<ObjectMeta>) {
    Selects(p, wl) || exists o :: o in owners && Selects(p, o)
  }

  // Each resource that matches the pod or a listed owner, once; in an order that, like Go's
  // iteration over a map, is not determined.
  method FindMatching(pl: seq<AuthProxyWorkload>, wl: ObjectMeta, owners: seq<ObjectMeta>, ghost ns: string)
      returns (found: seq<AuthProxyWorkload>)
    requires IsListing(pl, ns)
    ensures forall p :: p in found <==> p in pl && SelectedBySome(p, wl, owners)
    ensures forall p :: p in found <==>
              p in pl && !p.deleting && AgreesWithSome(p, [wl] + owners)
    ensures IdsDistinct(found)
  {
    hide Selects, SelectedBySome, AgreesWithSome, IsListing, KeysKept;
    SelectedExactly(pl, wl, owners, ns);
    var wls := CollectMatching(pl, wl, owners);
    found := Deduplicate(wls);
    NothingLost(pl, ns, wls, found);
  }

  lemma {:induction false} SelectedExactly(pl: seq<AuthProxyWorkload>, wl: ObjectMeta, owners: seq<ObjectMeta>, ns: string)
    requires IsListing(pl, ns)
    ensures forall p :: p in pl ==>
              (SelectedBySome(p, wl, owners) <==>
               !p.deleting && AgreesWithSome(p, [wl] + owners))
  {
    forall p | p in pl
      ensures SelectedBySome(p, wl, owners) <==> !p.deleting && AgreesWithSome(p, [wl] + owners)
    {
      SelectsExactly(p);
      hide Selects, Agrees;
      assert wl in [wl] + owners;
      assert forall o :: o in owners ==> o in [wl] + owners;
    }
  }

  lemma {:induction false} SelectsExactly(p: AuthProxyWorkload)
    requires p.id.namespace != ""
    ensures forall w :: Selects(p, w) <==> !p.deleting && Agrees(p, w)
  {
  }

  lemma {:induction false} NothingLost(pl: seq<AuthProxyWorkload>, ns: string, wls: seq<AuthProxyWorkload>, found: seq<AuthProxyWorkload>)
    requires IsListing(pl, ns)
    requires (forall p :: p in wls ==> p in pl) && (forall p :: p in found ==> p in wls)
    requires KeysKept(wls, found)
    ensures forall p :: p in wls ==> p in found
  {
    hide IsListing, MapKey;
    forall p | p in wls ensures p in found {
      var q :| q in found && MapKey(q.id) == MapKey(p.id);
      SameKeySameItem(pl, ns, p, q);
    }
  }

  lemma {:induction false} SameKeySameItem(pl: seq<AuthProxyWorkload>, ns: string, p: AuthProxyWorkload, q: AuthProxyWorkload)
    requires IsListing(pl, ns) && p in pl && q in pl && MapKey(p.id) == MapKey(q.id)
    ensures p == q
  {
    MapKeyInjective(p.id, q.id);
    var i, j :| 0 <= i < |pl| && pl[i] == p && 0 <= j < |pl| && pl[j] == q;
    assert i == j;
  }

  // Matches of the pod, then matches of each owner; a resource may come several times.
  method CollectMatching(pl: seq<AuthProxyWorkload>, wl: ObjectMeta, owners: seq<ObjectMeta>) returns (wls: seq<AuthProxyWorkload>)
    ensures forall p :: p in wls <==> p in pl && SelectedBySome(p, wl, owners)
  {
    hide Selects;
    wls := FilterMatching(pl, wl);
    for i := 0 to |owners|
      invariant forall p :: p in wls <==> p in pl && SelectedBySome(p, wl, owners[..i])
    {
      var more := FilterMatching(pl, owners[i]);
      assert owners[..i + 1] == owners[..i] + [owners[i]];
      wls := wls + more;
    }
    assert owners[..|owners|] == owners;
  }

  // One entry a key, any order.
  method Deduplicate(wls: seq<AuthProxyWorkload>) returns (found: seq<AuthProxyWorkload>)
    ensures forall p :: p in found ==> p in wls
    ensures KeysKept(wls, found)
    ensures IdsDistinct(found)
  {
    var m: map<string, AuthProxyWorkload> := map[];
    for i := 0 to |wls|
      invariant forall k :: k in m ==> m[k] in wls && MapKey(m[k].id) == k
      invariant forall p :: p in wls[..i] ==> MapKey(p.id) in m
    {
      m := m[MapKey(wls[i].id) := wls[i]];
    }
    assert wls[..|wls|] == wls;
    found := [];
    var rest := m.Keys;
    while rest != {}
      invariant rest <= m.Keys
      invariant forall p :: p in found ==> MapKey(p.id) in m && MapKey(p.id) !in rest && p == m[MapKey(p.id)]
      invariant forall k :: k in m && k !in rest ==> m[k] in found
      invariant IdsDistinct(found)
      decreases rest
    {
      var k :| k in rest;
      assert forall i :: 0 <= i < |found| ==> found[i] in found;
      found := found + [m[k]];
      rest := rest - {k};
    }
    forall p | p in wls ensures exists q :: q in found && MapKey(q.id) == MapKey(p.id) {
      assert m[MapKey(p.id)] in found;
    }
  }
}
