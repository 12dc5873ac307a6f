/** The extension server: its registry of gateways, and the clusters it injects into a translation. */
module Extension {
  import opened Options
  import opened Text
  import opened Api
  import opened Selections
  import opened Endpoints

  // ------------------------------------------------------------------ data

  datatype Gateway = Gateway(namespace: string, name: string, refName: string, refNamespace: Option<string>)

  datatype BackendRef = BackendRef(
    group: Option<string>, kind: Option<string>, namespace: Option<string>, name: string)

  datatype Route = Route(namespace: string, name: string, parentRefs: seq<string>, rules: seq<seq<BackendRef>>)

  datatype RouteKind = HTTP | GRPC | TCP | UDP | TLS

  const KINDS: seq<RouteKind> := [HTTP, GRPC, TCP, UDP, TLS]

  datatype Cluster = Cluster(name: string, endpoints: seq<Endpoint>)

  /** A backend reference by its place: route kind, and index of route, rule and reference. */
  datatype Place = Place(kind: RouteKind, route: nat, rule: nat, ref: nat)

  /**
   The API server during one translation: what listing each kind returns (a kind that is
   missing fails to list), the services it stores, and the places whose lookup fails.
   */
  datatype Cache = Cache(
    routes: map<RouteKind, seq<Route>>, services: map<(string, string), TailscaleService>, failing: set<Place>)

  function ProtocolName(kind: RouteKind): string {
    match kind
    case HTTP => "http"
    case GRPC => "grpc"
    case TCP => "tcp"
    case UDP => "udp"
    case TLS => "tls"
  }

  type Registry = map<string, Gateway>

  // ------------------------------------------------------------------ the registry

  function GatewayNamespace(g: Gateway): string {
    g.refNamespace.GetOr(g.namespace)
  }

  function GatewayKey(namespace: string, name: string): string {
    namespace + "/" + name
  }

  predicate Selects(registry: Registry, parentRefs: seq<string>) {
    registry.Keys == {} || exists p <- parentRefs :: GatewayKey("default", p) in registry
  }

  /** The registry has exactly the keys of the listed gateways, and under each the last one listed with it. */
  ghost predicate Registers(registry: Registry, gateways: seq<Gateway>) {
    && (forall g <- gateways :: KeyOf(g) in registry)
    && (forall k <- registry :: exists i :: IsLastWith(gateways, k, i) && registry[k] == gateways[i])
  }

  predicate IsLastWith(gateways: seq<Gateway>, key: string, i: int) {
    && 0 <= i < |gateways| && KeyOf(gateways[i]) == key
    && forall j | i < j < |gateways| :: KeyOf(gateways[j]) != key
  }

  function KeyOf(g: Gateway): string {
    GatewayKey(GatewayNamespace(g), g.refName)
  }

  lemma {:induction false} RegistersOneMore(registry: Registry, gateways: seq<Gateway>, i: nat)
    requires i < |gateways| && Registers(registry, gateways[..i])
    ensures Registers(registry[KeyOf(gateways[i]) := gateways[i]], gateways[..i + 1])
  {
    hide KeyOf;
    var before, after, last := gateways[..i], gateways[..i + 1], registry[KeyOf(gateways[i]) := gateways[i]];
    assert after == before + [gateways[i]];
    forall k <- last ensures exists j :: IsLastWith(after, k, j) && last[k] == after[j] {
      if k == KeyOf(gateways[i]) {
        assert IsLastWith(after, k, i);
      } else {
        var j :| IsLastWith(before, k, j) && registry[k] == before[j];
        assert IsLastWith(after, k, j) && after[j] == before[j];
      }
    }
  }

  lemma {:induction false} RegisteredKeys(registry: Registry, gateways: seq<Gateway>, key: string)
    requires Registers(registry, gateways)
    ensures key in registry <==> exists g <- gateways :: KeyOf(g) == key
  {
    hide KeyOf;
    if key in registry {
      var i :| IsLastWith(gateways, key, i) && registry[key] == gateways[i];
      assert gateways[i] in gateways;
    }
  }

  lemma {:induction false} KeyOfDefault(g: Gateway, parent: string)
    requires '/' !in GatewayNamespace(g)
    ensures KeyOf(g) == GatewayKey("default", parent) <==> GatewayNamespace(g) == "default" && g.refName == parent
  {
    if KeyOf(g) == GatewayKey("default", parent) {
      FirstSeparatorUnique("default", parent, GatewayNamespace(g), g.refName, '/');
    }
  }

  /**
   After a refresh, a route is selected exactly when no gateway is listed or some listed
   gateway's effective namespace is "default" and its reference is one of the route's
   parents.
   */
  lemma {:induction false} SelectionRefinesListing(registry: Registry, gateways: seq<Gateway>, parentRefs: seq<string>)
    requires Registers(registry, gateways)
    requires forall g <- gateways :: '/' !in g.namespace && (g.refNamespace.Some? ==> '/' !in g.refNamespace.value)
    ensures Selects(registry, parentRefs) <==>
              || gateways == []
              || exists g <- gateways ::
                   && (if g.refNamespace.Some? then g.refNamespace.value else g.namespace) == "default"
                   && g.refName in parentRefs
  {
    if gateways != [] { assert KeyOf(gateways[0]) in registry; }
    forall p ensures GatewayKey("default", p) in registry <==>
                       exists g <- gateways :: GatewayNamespace(g) == "default" && g.refName == p
    {
      RegisteredKeys(registry, gateways, GatewayKey("default", p));
      forall g <- gateways
        ensures KeyOf(g) == GatewayKey("default", p) <==> GatewayNamespace(g) == "default" && g.refName == p
      {
        KeyOfDefault(g, p);
      }
      hide Registers, KeyOf, GatewayKey, GatewayNamespace;
    }
    assert registry.Keys == {} <==> gateways == [];
    hide Registers, KeyOf, GatewayKey, GatewayNamespace;
  }

  // ------------------------------------------------------------------ the comprehension

  /** A reference with its place, and the namespace and the parents of its route. */
  datatype Item = Item(place: Place, routeNamespace: string, parentRefs: seq<string>, ref: BackendRef)

  function RefItems(kind: RouteKind, r: nat, route: Route, u: nat, n: nat): seq<Item>
    requires u < |route.rules| && n <= |route.rules[u]|
  {
    seq(n, b requires 0 <= b < n => Item(Place(kind, r, u, b), route.namespace, route.parentRefs, route.rules[u][b]))
  }

  function RuleItems(kind: RouteKind, r: nat, route: Route, n: nat): seq<Item>
    requires n <= |route.rules|
  {
    if n == 0 then [] else RuleItems(kind, r, route, n - 1) + RefItems(kind, r, route, n - 1, |route.rules[n - 1]|)
  }

  function RouteItems(kind: RouteKind, routes: seq<Route>, n: nat): seq<Item>
    requires n <= |routes|
  {
    if n == 0 then []
    else RouteItems(kind, routes, n - 1) + RuleItems(kind, n - 1, routes[n - 1], |routes[n - 1].rules|)
  }

  function KindItems(cache: Cache, kind: RouteKind): seq<Item> {
    if kind in cache.routes then RouteItems(kind, cache.routes[kind], |cache.routes[kind]|) else []
  }

  /** Every reference of every listed route, in order of route kind, route, rule and reference. */
  function AllItems(cache: Cache, n: nat): seq<Item>
    requires n <= |KINDS|
  {
    if n == 0 then [] else AllItems(cache, n - 1) + KindItems(cache, KINDS[n - 1])
  }

  predicate IsTailscaleRef(ref: BackendRef) {
    ref.group == Some("gateway.tailscale.com") && ref.kind == Some("TailscaleService")
  }

  function TargetKey(item: Item): (string, string) {
    (item.ref.namespace.GetOr(item.routeNamespace), item.ref.name)
  }

  function ClusterName(kind: RouteKind, namespace: string, name: string): string {
    "tailscale-service-" + ProtocolName(kind) + "-" + namespace + "-" + name
  }

  /** The reference is to a TailscaleService, of a route that is selected, and its lookup succeeds. */
  predicate Contributes(registry: Registry, cache: Cache, item: Item): (yes: bool)
    ensures yes ==> TargetKey(item) in cache.services
  {
    && Selects(registry, item.parentRefs)
    && IsTailscaleRef(item.ref)
    && item.place !in cache.failing
    && TargetKey(item) in cache.services
  }

  function ClusterFor(cache: Cache, item: Item): Cluster
    requires TargetKey(item) in cache.services
  {
    var service := cache.services[TargetKey(item)];
    Cluster(ClusterName(item.place.kind, TargetKey(item).0, service.name),
            EndpointsOf(VIPAddresses(service.status), service.spec))
  }

  /** The contributing references, each with its cluster. */
  function Contributions(registry: Registry, cache: Cache, items: seq<Item>): seq<(Place, Cluster)> {
    if items == [] then []
    else
      var last := items[|items| - 1];
      Contributions(registry, cache, items[..|items| - 1])
      + if Contributes(registry, cache, last) then [(last.place, ClusterFor(cache, last))] else []
  }

  function Clusters(contributions: seq<(Place, Cluster)>): seq<Cluster> {
    seq(|contributions|, i requires 0 <= i < |contributions| => contributions[i].1)
  }

  function Injected(registry: Registry, cache: Cache, items: seq<Item>): seq<Cluster> {
    Clusters(Contributions(registry, cache, items))
  }

  lemma {:induction false} ContributionsAppend(registry: Registry, cache: Cache, a: seq<Item>, b: seq<Item>)
    ensures Contributions(registry, cache, a + b) ==
              Contributions(registry, cache, a) + Contributions(registry, cache, b)
  {
    hide Contributes, ClusterFor;
    if b == [] {
      assert a + b == a;
    } else {
      ContributionsAppend(registry, cache, a, b[..|b| - 1]);
      assert (a + b)[..|a + b| - 1] == a + b[..|b| - 1];
    }
  }

  lemma {:induction false} InjectedAppend(registry: Registry, cache: Cache, a: seq<Item>, b: seq<Item>)
    ensures Injected(registry, cache, a + b) == Injected(registry, cache, a) + Injected(registry, cache, b)
  {
    hide Contributions;
    ContributionsAppend(registry, cache, a, b);
  }

  lemma {:induction false} InjectedOne(registry: Registry, cache: Cache, item: Item)
    ensures Injected(registry, cache, [item]) ==
              if Contributes(registry, cache, item) then [ClusterFor(cache, item)] else []
  {
    hide Selects, ClusterFor;
    assert [item][..0] == [];
    assert Contributions(registry, cache, [item][..0]) == [];
  }

  /** The references of a route that is not selected contribute nothing. */
  lemma {:induction false} UnselectedInjectNothing(registry: Registry, cache: Cache, items: seq<Item>)
    requires forall item <- items :: !Selects(registry, item.parentRefs)
    ensures Injected(registry, cache, items) == []
  {
    hide Selects, ClusterFor;
    if items != [] { UnselectedInjectNothing(registry, cache, items[..|items| - 1]); }
  }

  lemma {:induction false} RuleItemsParents(kind: RouteKind, r: nat, route: Route, n: nat)
    requires n <= |route.rules|
    ensures forall item <- RuleItems(kind, r, route, n) :: item.parentRefs == route.parentRefs
  {
    if n > 0 { RuleItemsParents(kind, r, route, n - 1); }
  }

  // ------------------------------------------------------------------ the server

  class Request {
    var clusters: seq<Cluster>

    constructor (clusters: seq<Cluster>)
      ensures this.clusters == clusters
    {
      this.clusters := clusters;
    }
  }

  class TailscaleExtensionServer {
    var gatewayRegistry: Registry

    constructor ()
      ensures gatewayRegistry == map[]
    {
      gatewayRegistry := map[];
    }

    /** A failed listing leaves the registry alone; otherwise it is rebuilt from nothing. */
    method RefreshGatewayRegistry(listed: Option<seq<Gateway>>)
      modifies this
      ensures listed.None? ==> gatewayRegistry == old(gatewayRegistry)
      ensures listed.Some? ==> Registers(gatewayRegistry, listed.value)
    {
      if listed.Some? {
        var gateways := listed.value;
        gatewayRegistry := map[];
        for i := 0 to |gateways|
          invariant Registers(gatewayRegistry, gateways[..i])
        {
          var gateway := gateways[i];
          var namespace := gateway.namespace;
          if gateway.refNamespace.Some? {
            namespace := gateway.refNamespace.value;
          }
          RegistersOneMore(gatewayRegistry, gateways, i);
          gatewayRegistry := gatewayRegistry[GatewayKey(namespace, gateway.refName) := gateway];
        }
        assert gateways[..|gateways|] == gateways;
      }
    }

    method ShouldProcessRoute(parentRefs: seq<string>) returns (selected: bool)
      ensures selected <==> Selects(gatewayRegistry, parentRefs)
    {
      if gatewayRegistry == map[] {
        return true;
      }
      for i := 0 to |parentRefs|
        invariant forall j | 0 <= j < i :: GatewayKey("default", parentRefs[j]) !in gatewayRegistry
      {
        if GatewayKey("default", parentRefs[i]) in gatewayRegistry {
          return true;
        }
      }
      return false;
    }

    /** Appends the cluster of one reference, if it is to a TailscaleService that can be looked up. */
    method ProcessBackendRef(cache: Cache, item: Item, req: Request) returns (ok: bool)
      requires Selects(gatewayRegistry, item.parentRefs)
      modifies req
      ensures req.clusters == old(req.clusters) + Injected(gatewayRegistry, cache, [item])
      ensures ok <==> IsTailscaleRef(item.ref) ==> Contributes(gatewayRegistry, cache, item)
    {
      InjectedOne(gatewayRegistry, cache, item);
      hide Injected;
      ok := true;
      if IsTailscaleRef(item.ref) {
        var namespace := item.routeNamespace;
        if item.ref.namespace.Some? {
          namespace := item.ref.namespace.value;
        }
        if item.place in cache.failing || (namespace, item.ref.name) !in cache.services {
          ok := false;
        } else {
          var service := cache.services[(namespace, item.ref.name)];
          var endpoints := ResolveTailscaleServiceEndpoints(service);
          req.clusters := req.clusters + [Cluster(ClusterName(item.place.kind, namespace, service.name), endpoints)];
        }
      }
    }

    method ProcessRule(cache: Cache, kind: RouteKind, r: nat, route: Route, u: nat, req: Request)
      requires u < |route.rules| && Selects(gatewayRegistry, route.parentRefs)
      modifies req
      ensures req.clusters == old(req.clusters)
                + Injected(gatewayRegistry, cache, RefItems(kind, r, route, u, |route.rules[u]|))
    {
      hide Injected, Selects;
      NothingInjectsNothing(gatewayRegistry, cache);
      assert RefItems(kind, r, route, u, 0) == [];
      for b := 0 to |route.rules[u]|
        invariant req.clusters == old(req.clusters) + Injected(gatewayRegistry, cache, RefItems(kind, r, route, u, b))
      {
        var item := Item(Place(kind, r, u, b), route.namespace, route.parentRefs, route.rules[u][b]);
        var ok := ProcessBackendRef(cache, item, req);
        assert RefItems(kind, r, route, u, b + 1) == RefItems(kind, r, route, u, b) + [item];
        InjectedAppend(gatewayRegistry, cache, RefItems(kind, r, route, u, b), [item]);
      }
    }

    method ProcessRoute(cache: Cache, kind: RouteKind, r: nat, route: Route, req: Request)
      requires Selects(gatewayRegistry, route.parentRefs)
      modifies req
      ensures req.clusters == old(req.clusters)
                + Injected(gatewayRegistry, cache, RuleItems(kind, r, route, |route.rules|))
    {
      hide Injected, Selects;
      NothingInjectsNothing(gatewayRegistry, cache);
      for u := 0 to |route.rules|
        invariant req.clusters == old(req.clusters) + Injected(gatewayRegistry, cache, RuleItems(kind, r, route, u))
      {
        ProcessRule(cache, kind, r, route, u, req);
        InjectedAppend(gatewayRegistry, cache, RuleItems(kind, r, route, u),
                       RefItems(kind, r, route, u, |route.rules[u]|));
      }
    }

    /** The loop of processHTTPRoutes, processGRPCRoutes, processTCPRoutes, processUDPRoutes and processTLSRoutes. */
    method ProcessRoutes(cache: Cache, kind: RouteKind, req: Request) returns (ok: bool)
      modifies req
      ensures req.clusters == old(req.clusters) + Injected(gatewayRegistry, cache, KindItems(cache, kind))
      ensures ok <==> kind in cache.routes
    {
      hide Injected, Selects;
      NothingInjectsNothing(gatewayRegistry, cache);
      if kind !in cache.routes {
        return false;
      }
      var routes := cache.routes[kind];
      for r := 0 to |routes|
        invariant req.clusters == old(req.clusters) + Injected(gatewayRegistry, cache, RouteItems(kind, routes, r))
      {
        ghost var items := RuleItems(kind, r, routes[r], |routes[r].rules|);
        InjectedAppend(gatewayRegistry, cache, RouteItems(kind, routes, r), items);
        var selected := ShouldProcessRoute(routes[r].parentRefs);
        if !selected {
          RuleItemsParents(kind, r, routes[r], |routes[r].rules|);
          UnselectedInjectNothing(gatewayRegistry, cache, items);
        } else {
          ProcessRoute(cache, kind, r, routes[r], req);
        }
      }
      return true;
    }

    /**
     The result is the original clusters followed by one cluster for each reference to a
     TailscaleService that exists, of a selected route, in order of route kind, route, rule
     and reference.
     */
    method DiscoverAndInjectTailscaleServices(cache: Cache, req: Request)
      modifies req
      ensures req.clusters == old(req.clusters) + Injected(gatewayRegistry, cache, AllItems(cache, |KINDS|))
    {
      hide Injected, KindItems;
      NothingInjectsNothing(gatewayRegistry, cache);
      for k := 0 to |KINDS|
        invariant req.clusters == old(req.clusters) + Injected(gatewayRegistry, cache, AllItems(cache, k))
      {
        var ok := ProcessRoutes(cache, KINDS[k], req);
        InjectedAppend(gatewayRegistry, cache, AllItems(cache, k), KindItems(cache, KINDS[k]));
      }
    }
  }

  lemma {:induction false} NothingInjectsNothing(registry: Registry, cache: Cache)
    ensures Injected(registry, cache, []) == []
  {
  }

  // ------------------------------------------------------------------ failures stay local

  function Without<T>(s: seq<T>, drop: T -> bool): seq<T> {
    if s == [] then []
    else Without(s[..|s| - 1], drop) + if drop(s[|s| - 1]) then [] else [s[|s| - 1]]
  }

  function AtPlaces(places: set<Place>): ((Place, Cluster)) -> bool {
    (t: (Place, Cluster)) => t.0 in places
  }

  function OfKind(kind: RouteKind): ((Place, Cluster)) -> bool {
    (t: (Place, Cluster)) => t.0.kind == kind
  }

  lemma {:induction false} WithoutAppend<T>(a: seq<T>, b: seq<T>, drop: T -> bool)
    ensures Without(a + b, drop) == Without(a, drop) + Without(b, drop)
  {
    if b == [] {
      assert a + b == a;
    } else {
      WithoutAppend(a, b[..|b| - 1], drop);
      assert (a + b)[..|a + b| - 1] == a + b[..|b| - 1];
    }
  }

  /** Lookups that fail take away the clusters at their own places and nothing else. */
  lemma {:induction false} FailedLookupsDropTheirOwn(
    registry: Registry, cache: Cache, more: set<Place>, items: seq<Item>)
    ensures Contributions(registry, cache.(failing := cache.failing + more), items)
            == Without(Contributions(registry, cache, items), AtPlaces(more))
  {
    var drop := AtPlaces(more);
    if items != [] {
      var front, last := items[..|items| - 1], items[|items| - 1];
      FailedLookupsDropTheirOwn(registry, cache, more, front);
      var own := if Contributes(registry, cache, last) then [(last.place, ClusterFor(cache, last))] else [];
      WithoutAppend(Contributions(registry, cache, front), own, drop);
    }
  }

  lemma {:induction false} RuleItemsKind(kind: RouteKind, r: nat, route: Route, n: nat)
    requires n <= |route.rules|
    ensures forall item <- RuleItems(kind, r, route, n) :: item.place.kind == kind
  {
    if n > 0 { RuleItemsKind(kind, r, route, n - 1); }
  }

  lemma {:induction false} RouteItemsKind(kind: RouteKind, routes: seq<Route>, n: nat)
    requires n <= |routes|
    ensures forall item <- RouteItems(kind, routes, n) :: item.place.kind == kind
  {
    if n > 0 {
      RouteItemsKind(kind, routes, n - 1);
      RuleItemsKind(kind, n - 1, routes[n - 1], |routes[n - 1].rules|);
    }
  }

  lemma {:induction false} WithoutKind(
    registry: Registry, cache: Cache, items: seq<Item>, kind: RouteKind, failed: RouteKind)
    requires forall item <- items :: item.place.kind == kind
    ensures Without(Contributions(registry, cache, items), OfKind(failed))
            == if kind == failed then [] else Contributions(registry, cache, items)
  {
    hide Selects, ClusterFor;
    if items != [] {
      var front, last := items[..|items| - 1], items[|items| - 1];
      WithoutKind(registry, cache, front, kind, failed);
      var own := if Contributes(registry, cache, last) then [(last.place, ClusterFor(cache, last))] else [];
      WithoutAppend(Contributions(registry, cache, front), own, OfKind(failed));
    }
  }

  lemma {:induction false} ContributionsIgnoreListing(
    registry: Registry, cache: Cache, routes: map<RouteKind, seq<Route>>, items: seq<Item>)
    ensures Contributions(registry, cache.(routes := routes), items) == Contributions(registry, cache, items)
  {
    hide Selects;
    if items != [] { ContributionsIgnoreListing(registry, cache, routes, items[..|items| - 1]); }
  }

  /** What one kind of route contributes when `failed` cannot be listed. */
  lemma {:induction false} KindWithout(registry: Registry, cache: Cache, failed: RouteKind, kind: RouteKind)
    ensures var cache' := cache.(routes := cache.routes - {failed});
            Contributions(registry, cache', KindItems(cache', kind))
            == Without(Contributions(registry, cache, KindItems(cache, kind)), OfKind(failed))
  {
    var cache' := cache.(routes := cache.routes - {failed});
    hide Contributions, Without;
    if kind in cache.routes { RouteItemsKind(kind, cache.routes[kind], |cache.routes[kind]|); }
    WithoutKind(registry, cache, KindItems(cache, kind), kind, failed);
    ContributionsIgnoreListing(registry, cache, cache'.routes, KindItems(cache', kind));
    NoContributions(registry, cache');
  }

  /** A kind of route that fails to list takes away its own clusters and nothing else. */
  lemma {:induction false} FailedListDropsItsOwn(registry: Registry, cache: Cache, failed: RouteKind, n: nat)
    requires n <= |KINDS|
    ensures var cache' := cache.(routes := cache.routes - {failed});
            Contributions(registry, cache', AllItems(cache', n))
            == Without(Contributions(registry, cache, AllItems(cache, n)), OfKind(failed))
  {
    hide Contributions, KindItems;
    var cache' := cache.(routes := cache.routes - {failed});
    if n == 0 {
      NoContributions(registry, cache);
      NoContributions(registry, cache');
    } else {
      var kind := KINDS[n - 1];
      FailedListDropsItsOwn(registry, cache, failed, n - 1);
      KindWithout(registry, cache, failed, kind);
      ContributionsAppend(registry, cache, AllItems(cache, n - 1), KindItems(cache, kind));
      ContributionsAppend(registry, cache', AllItems(cache', n - 1), KindItems(cache', kind));
      WithoutAppend(Contributions(registry, cache, AllItems(cache, n - 1)),
                    Contributions(registry, cache, KindItems(cache, kind)),
                    OfKind(failed));
    }
  }

  lemma {:induction false} NoContributions(registry: Registry, cache: Cache)
    ensures Contributions(registry, cache, []) == []
  {
  }

  // ------------------------------------------------------------------ the names of clusters

  /** A namespace and a name with '-' between them read the same as another two. */
  ghost predicate ReadsAlike(a: string, x: string, b: string, y: string) {
    || (a == b && x == y)
    || (exists d :: b == a + ['-'] + d && x == d + ['-'] + y)
    || (exists d :: a == b + ['-'] + d && y == d + ['-'] + x)
  }

  /** The second of two equal texts has its hyphen later, so it holds all of the first part of the first. */
  lemma {:induction false} LongerPart(a: string, x: string, b: string, y: string)
    requires a + ['-'] + x == b + ['-'] + y && |a| < |b|
    ensures var d := b[|a| + 1..]; b == a + ['-'] + d && x == d + ['-'] + y
  {
    var s, d := b + ['-'] + y, b[|a| + 1..];
    assert s[..|a|] == a && s[|a|] == '-' && s[|a| + 1..] == x;
    assert s[..|a|] == b[..|a|] && s[|a|] == b[|a|] && s[|a| + 1..] == d + ['-'] + y;
    assert b == b[..|a|] + [b[|a|]] + d;
  }

  lemma {:induction false} JoinedAlikeExactly(a: string, x: string, b: string, y: string)
    ensures a + ['-'] + x == b + ['-'] + y <==> ReadsAlike(a, x, b, y)
  {
    if a + ['-'] + x == b + ['-'] + y {
      if |a| < |b| {
        LongerPart(a, x, b, y);
      } else if |b| < |a| {
        LongerPart(b, y, a, x);
      } else {
        var s := a + ['-'] + x;
        assert a == s[..|a|] == b && x == s[|a| + 1..] == y;
      }
    } else if ReadsAlike(a, x, b, y) {
      AlikeIsJoinedAlike(a, x, b, y);
    }
  }

  lemma {:induction false} AlikeIsJoinedAlike(a: string, x: string, b: string, y: string)
    requires ReadsAlike(a, x, b, y)
    ensures a + ['-'] + x == b + ['-'] + y
  {
    forall d: string, u: string, v: string ensures u + ['-'] + (d + ['-'] + v) == (u + ['-'] + d) + ['-'] + v {
    }
  }

  /** The name of a cluster, up to the namespace, tells the route kind. */
  lemma {:induction false} NameTellsKind(k: RouteKind, l: RouteKind, s: string, t: string)
    ensures ProtocolName(k) + ['-'] + s == ProtocolName(l) + ['-'] + t <==> k == l && s == t
  {
    if ProtocolName(k) + ['-'] + s == ProtocolName(l) + ['-'] + t {
      FirstSeparatorUnique(ProtocolName(k), s, ProtocolName(l), t, '-');
    }
  }

  lemma {:induction false} NameParts(kind: RouteKind, namespace: string, name: string)
    ensures ClusterName(kind, namespace, name) ==
              "tailscale-service-" + (ProtocolName(kind) + ['-'] + (namespace + ['-'] + name))
  {
    hide ProtocolName;
  }

  lemma {:induction false} NamesSpelled(namespace: string, name: string)
    ensures ClusterName(HTTP, namespace, name) == "tailscale-service-http-" + namespace + "-" + name
    ensures ClusterName(GRPC, namespace, name) == "tailscale-service-grpc-" + namespace + "-" + name
    ensures ClusterName(TCP, namespace, name) == "tailscale-service-tcp-" + namespace + "-" + name
    ensures ClusterName(UDP, namespace, name) == "tailscale-service-udp-" + namespace + "-" + name
    ensures ClusterName(TLS, namespace, name) == "tailscale-service-tls-" + namespace + "-" + name
  {
    forall kind ensures "tailscale-service-" + ProtocolName(kind) + "-" + namespace + "-" + name ==
                          ("tailscale-service-" + ProtocolName(kind) + "-") + namespace + "-" + name
    {
    }
  }

  /** Two clusters share a name exactly if their route kind is the same and the rest reads alike. */
  lemma {:induction false} ClusterNamesCollideExactly(
    k: RouteKind, a: string, x: string, l: RouteKind, b: string, y: string)
    ensures ClusterName(k, a, x) == ClusterName(l, b, y) <==> k == l && ReadsAlike(a, x, b, y)
  {
    NameParts(k, a, x);
    NameParts(l, b, y);
    hide ClusterName, ReadsAlike, ProtocolName;
    PrefixCancels("tailscale-service-", ProtocolName(k) + ['-'] + (a + ['-'] + x),
                  ProtocolName(l) + ['-'] + (b + ['-'] + y));
    NameTellsKind(k, l, a + ['-'] + x, b + ['-'] + y);
    JoinedAlikeExactly(a, x, b, y);
  }

  lemma {:induction false} PrefixCancels(p: string, s: string, t: string)
    ensures p + s == p + t <==> s == t
  {
    assert (p + s)[|p|..] == s && (p + t)[|p|..] == t;
  }

  /** So for namespaces without a hyphen, a cluster's name tells the kind, the namespace and the name of the service. */
  lemma {:induction false} HyphenFreeNamesDiffer(k: RouteKind, a: string, x: string, l: RouteKind, b: string, y: string)
    requires '-' !in a && '-' !in b
    ensures ClusterName(k, a, x) == ClusterName(l, b, y) <==> k == l && a == b && x == y
  {
    ClusterNamesCollideExactly(k, a, x, l, b, y);
    hide ClusterName;
    forall d ensures '-' in a + ['-'] + d && '-' in b + ['-'] + d {
      assert (a + ['-'] + d)[|a|] == '-' && (b + ['-'] + d)[|b|] == '-';
    }
  }

  /** The clusters of two references share their name: one service referenced twice, or two that read alike. */
  ghost predicate SameCluster(cache: Cache, i: Item, j: Item)
    requires TargetKey(i) in cache.services && TargetKey(j) in cache.services
  {
    && i.place.kind == j.place.kind
    && ReadsAlike(TargetKey(i).0, cache.services[TargetKey(i)].name, TargetKey(j).0, cache.services[TargetKey(j)].name)
  }

  ghost predicate NamesDiffer(clusters: seq<Cluster>) {
    forall i, j | 0 <= i < j < |clusters| :: clusters[i].name != clusters[j].name
  }

  /** No two references that contribute share their cluster's name. */
  ghost predicate ReferencesDiffer(registry: Registry, cache: Cache, items: seq<Item>) {
    forall i, j | 0 <= i < j < |items|
                  && Contributes(registry, cache, items[i]) && Contributes(registry, cache, items[j]) ::
      !SameCluster(cache, items[i], items[j])
  }

  lemma {:induction false} SameNameExactly(cache: Cache, i: Item, j: Item)
    requires TargetKey(i) in cache.services && TargetKey(j) in cache.services
    ensures ClusterFor(cache, i).name == ClusterFor(cache, j).name <==> SameCluster(cache, i, j)
  {
    ClusterNamesCollideExactly(
      i.place.kind, TargetKey(i).0, cache.services[TargetKey(i)].name,
      j.place.kind, TargetKey(j).0, cache.services[TargetKey(j)].name);
    hide ClusterName, EndpointsOf, ReadsAlike;
  }

  /** The last reference, after those before it. */
  lemma {:induction false} InjectedLast(registry: Registry, cache: Cache, items: seq<Item>)
    requires items != []
    ensures var last := items[|items| - 1];
            Injected(registry, cache, items) ==
              Injected(registry, cache, items[..|items| - 1])
              + if Contributes(registry, cache, last) then [ClusterFor(cache, last)] else []
  {
    var last := items[|items| - 1];
    assert items == items[..|items| - 1] + [last];
    InjectedAppend(registry, cache, items[..|items| - 1], [last]);
    InjectedOne(registry, cache, last);
  }

  /** Every cluster that is injected is that of a reference, and every contributing reference's is. */
  lemma {:induction false} InjectedNames(registry: Registry, cache: Cache, items: seq<Item>, name: string)
    ensures (exists c <- Injected(registry, cache, items) :: c.name == name) <==>
              exists item <- items :: Contributes(registry, cache, item) && ClusterFor(cache, item).name == name
  {
    hide Contributes, ClusterFor, Injected;
    if items == [] {
      NothingInjectsNothing(registry, cache);
    } else {
      var front, last := items[..|items| - 1], items[|items| - 1];
      InjectedLast(registry, cache, items);
      InjectedNames(registry, cache, front, name);
      assert forall item :: item in items <==> item in front || item == last;
    }
  }

  lemma {:induction false} SplitNames(clusters: seq<Cluster>, last: Cluster)
    ensures NamesDiffer(clusters + [last]) <==> NamesDiffer(clusters) && forall c <- clusters :: c.name != last.name
  {
    var all := clusters + [last];
    assert forall i | 0 <= i < |clusters| :: all[i] == clusters[i];
    assert all[|clusters|] == last;
  }

  lemma {:induction false} SplitReferences(registry: Registry, cache: Cache, front: seq<Item>, last: Item)
    ensures ReferencesDiffer(registry, cache, front + [last]) <==>
              && ReferencesDiffer(registry, cache, front)
              && (Contributes(registry, cache, last) ==>
                    forall item <- front | Contributes(registry, cache, item) :: !SameCluster(cache, item, last))
  {
    hide Contributes, SameCluster;
    var all := front + [last];
    assert forall i | 0 <= i < |front| :: all[i] == front[i];
    assert all[|front|] == last;
  }

  lemma {:induction false} LastNameDiffers(registry: Registry, cache: Cache, front: seq<Item>, last: Item)
    requires Contributes(registry, cache, last)
    ensures (forall c <- Injected(registry, cache, front) :: c.name != ClusterFor(cache, last).name) <==>
              forall item <- front | Contributes(registry, cache, item) :: !SameCluster(cache, item, last)
  {
    hide Contributes, SameCluster, ClusterFor, Injected;
    InjectedNames(registry, cache, front, ClusterFor(cache, last).name);
    forall item <- front | Contributes(registry, cache, item)
      ensures ClusterFor(cache, item).name == ClusterFor(cache, last).name <==> SameCluster(cache, item, last)
    {
      SameNameExactly(cache, item, last);
    }
  }

  /**
   The injected clusters have pairwise different names exactly if no two contributing
   references, the same service referenced twice included, share one.
   */
  lemma {:induction false} InjectedNamesDifferExactly(registry: Registry, cache: Cache, items: seq<Item>)
    ensures NamesDiffer(Injected(registry, cache, items)) <==> ReferencesDiffer(registry, cache, items)
  {
    hide Contributes, ClusterFor, Injected, SameCluster;
    if items == [] {
      NothingInjectsNothing(registry, cache);
    } else {
      var front, last := items[..|items| - 1], items[|items| - 1];
      InjectedLast(registry, cache, items);
      InjectedNamesDifferExactly(registry, cache, front);
      if Contributes(registry, cache, last) {
        LastNameDiffers(registry, cache, front, last);
        SplitNames(Injected(registry, cache, front), ClusterFor(cache, last));
      } else {
        assert Injected(registry, cache, front) + [] == Injected(registry, cache, front);
      }
      SplitReferences(registry, cache, front, last);
      assert items == front + [last];
    }
  }

  // ------------------------------------------------------------------ places

  ghost predicate PlacesDiffer(items: seq<Item>) {
    forall i, j | 0 <= i < j < |items| :: items[i].place != items[j].place
  }

  /** The order of places: by route kind, route, rule and reference. */
  ghost predicate ComesBefore(p: Place, q: Place) {
    || Rank(p.kind) < Rank(q.kind)
    || (p.kind == q.kind
        && (p.route < q.route || (p.route == q.route && (p.rule < q.rule || (p.rule == q.rule && p.ref < q.ref)))))
  }

  function Rank(kind: RouteKind): nat {
    match kind
    case HTTP => 0
    case GRPC => 1
    case TCP => 2
    case UDP => 3
    case TLS => 4
  }

  ghost predicate InOrder(items: seq<Item>) {
    forall i, j | 0 <= i < j < |items| :: ComesBefore(items[i].place, items[j].place)
  }

  /** The item is what the route kind's listing has at the item's place. */
  ghost predicate IsListed(cache: Cache, item: Item) {
    var p := item.place;
    p.kind in cache.routes &&
    var routes := cache.routes[p.kind];
    && p.route < |routes| && p.rule < |routes[p.route].rules| && p.ref < |routes[p.route].rules[p.rule]|
    && item == Item(p, routes[p.route].namespace, routes[p.route].parentRefs, routes[p.route].rules[p.rule][p.ref])
  }

  lemma {:induction false} OrderAppend(a: seq<Item>, b: seq<Item>)
    requires InOrder(a) && InOrder(b)
    requires forall x, y | x in a && y in b :: ComesBefore(x.place, y.place)
    ensures InOrder(a + b)
  {
    hide ComesBefore;
  }

  lemma {:induction false} RefItemsListed(kind: RouteKind, r: nat, route: Route, u: nat)
    requires u < |route.rules|
    ensures InOrder(RefItems(kind, r, route, u, |route.rules[u]|))
    ensures forall item :: item in RefItems(kind, r, route, u, |route.rules[u]|) <==>
              item.place.ref < |route.rules[u]|
              && item == Item(Place(kind, r, u, item.place.ref), route.namespace, route.parentRefs,
                              route.rules[u][item.place.ref])
  {
    var items := RefItems(kind, r, route, u, |route.rules[u]|);
    forall b: nat | b < |route.rules[u]|
      ensures Item(Place(kind, r, u, b), route.namespace, route.parentRefs, route.rules[u][b]) in items
    {
      assert items[b] == Item(Place(kind, r, u, b), route.namespace, route.parentRefs, route.rules[u][b]);
    }
  }

  lemma {:induction false} RuleItemsListed(kind: RouteKind, r: nat, route: Route, n: nat)
    requires n <= |route.rules|
    ensures InOrder(RuleItems(kind, r, route, n))
    ensures forall item :: item in RuleItems(kind, r, route, n) <==>
              item.place.rule < n && item.place.ref < |route.rules[item.place.rule]|
              && item == Item(Place(kind, r, item.place.rule, item.place.ref), route.namespace, route.parentRefs,
                              route.rules[item.place.rule][item.place.ref])
  {
    hide InOrder, RefItems;
    if n > 0 {
      RuleItemsListed(kind, r, route, n - 1);
      RefItemsListed(kind, r, route, n - 1);
      OrderAppend(RuleItems(kind, r, route, n - 1), RefItems(kind, r, route, n - 1, |route.rules[n - 1]|));
    } else {
      assert InOrder([]) by { NothingInOrder(); }
    }
  }

  lemma {:induction false} NothingInOrder()
    ensures InOrder([])
  {
  }

  lemma {:induction false} RouteItemsListed(kind: RouteKind, routes: seq<Route>, n: nat)
    requires n <= |routes|
    ensures InOrder(RouteItems(kind, routes, n))
    ensures forall item :: item in RouteItems(kind, routes, n) <==>
              item.place.route < n && IsListed(Cache(map[kind := routes], map[], {}), item)
  {
    hide InOrder, RuleItems;
    if n > 0 {
      RouteItemsListed(kind, routes, n - 1);
      RuleItemsListed(kind, n - 1, routes[n - 1], |routes[n - 1].rules|);
      OrderAppend(RouteItems(kind, routes, n - 1), RuleItems(kind, n - 1, routes[n - 1], |routes[n - 1].rules|));
    } else {
      assert InOrder([]) by { NothingInOrder(); }
    }
  }

  lemma {:induction false} KindItemsListed(cache: Cache, kind: RouteKind)
    ensures InOrder(KindItems(cache, kind))
    ensures forall item :: item in KindItems(cache, kind) <==> item.place.kind == kind && IsListed(cache, item)
  {
    hide InOrder, RouteItems;
    if kind in cache.routes {
      RouteItemsListed(kind, cache.routes[kind], |cache.routes[kind]|);
    } else {
      assert InOrder([]) by { NothingInOrder(); }
    }
  }

  /** The references of the first kinds are exactly the listed ones, and they come in order. */
  lemma {:induction false} KindsListed(cache: Cache, n: nat)
    requires n <= |KINDS|
    ensures InOrder(AllItems(cache, n))
    ensures forall item :: item in AllItems(cache, n) <==> Rank(item.place.kind) < n && IsListed(cache, item)
  {
    hide InOrder, KindItems, IsListed;
    if n > 0 {
      KindsListed(cache, n - 1);
      KindItemsListed(cache, KINDS[n - 1]);
      assert forall kind :: kind == KINDS[n - 1] <==> Rank(kind) == n - 1;
      OrderAppend(AllItems(cache, n - 1), KindItems(cache, KINDS[n - 1]));
    } else {
      assert InOrder([]) by { NothingInOrder(); }
    }
  }

  /** So every reference of a translation has a place of its own. */
  lemma {:induction false} AllPlacesDiffer(cache: Cache, n: nat)
    requires n <= |KINDS|
    ensures PlacesDiffer(AllItems(cache, n))
    ensures forall item <- AllItems(cache, n) :: item.place.kind in KINDS[..n]
  {
    hide AllItems, IsListed;
    KindsListed(cache, n);
    forall item <- AllItems(cache, n) ensures item.place.kind in KINDS[..n] {
      assert KINDS[..n][Rank(item.place.kind)] == item.place.kind;
    }
  }

  /** A translation goes through exactly the references of the listed routes, in the order of their places. */
  lemma {:induction false} AllListed(cache: Cache)
    ensures InOrder(AllItems(cache, |KINDS|))
    ensures forall item :: item in AllItems(cache, |KINDS|) <==> IsListed(cache, item)
  {
    hide InOrder, IsListed, AllItems;
    KindsListed(cache, |KINDS|);
  }

  // ------------------------------------------------------------------ what one reference injects

  /** The namespace that the reference names, or that of its route. */
  predicate IsTargetNamespace(namespace: string, item: Item) {
    namespace == if item.ref.namespace.Some? then item.ref.namespace.value else item.routeNamespace
  }

  /** A selected route's reference to a TailscaleService in this namespace that is there and can be looked up. */
  predicate Resolves(registry: Registry, cache: Cache, item: Item, namespace: string) {
    && IsTargetNamespace(namespace, item)
    && Selects(registry, item.parentRefs)
    && item.ref.group == Some("gateway.tailscale.com") && item.ref.kind == Some("TailscaleService")
    && item.place !in cache.failing && (namespace, item.ref.name) in cache.services
  }

  /** The cluster of a TailscaleService in this namespace. */
  predicate IsClusterOf(cluster: Cluster, kind: RouteKind, namespace: string, service: TailscaleService) {
    && cluster.name == "tailscale-service-" + ProtocolName(kind) + "-" + namespace + "-" + service.name
    && cluster.endpoints == EndpointsOf(VIPAddresses(service.status), service.spec)
  }

  /** A reference injects one cluster if it resolves, named by its namespace and with its endpoints, and else none. */
  lemma {:induction false} ReferenceInjectsExactly(registry: Registry, cache: Cache, item: Item, namespace: string)
    requires IsTargetNamespace(namespace, item)
    ensures var injected := Injected(registry, cache, [item]);
            if Resolves(registry, cache, item, namespace) then
              && |injected| == 1
              && IsClusterOf(injected[0], item.place.kind, namespace, cache.services[(namespace, item.ref.name)])
            else injected == []
  {
    hide Selects, EndpointsOf, ProtocolName;
    InjectedOne(registry, cache, item);
  }

  /** The route's own namespace has no influence on a reference that carries one. */
  lemma {:induction false} RouteNamespaceIrrelevant(
    registry: Registry, cache: Cache, item: Item, namespace: string)
    requires item.ref.namespace.Some?
    ensures Injected(registry, cache, [item.(routeNamespace := namespace)]) == Injected(registry, cache, [item])
  {
    hide Selects, EndpointsOf, ProtocolName;
    InjectedOne(registry, cache, item);
    InjectedOne(registry, cache, item.(routeNamespace := namespace));
    hide Injected;
  }

  ghost predicate ResolvesSomewhere(registry: Registry, cache: Cache, item: Item) {
    exists namespace :: Resolves(registry, cache, item, namespace)
  }

  ghost function Resolving(registry: Registry, cache: Cache, items: seq<Item>): nat -> bool {
    (i: nat) => i < |items| && ResolvesSomewhere(registry, cache, items[i])
  }

  /** The cluster is that of the TailscaleService that the item refers to. */
  ghost predicate IsClusterFor(registry: Registry, cache: Cache, cluster: Cluster, item: Item) {
    exists namespace | Resolves(registry, cache, item, namespace) ::
      IsClusterOf(cluster, item.place.kind, namespace, cache.services[(namespace, item.ref.name)])
  }

  lemma {:induction false} OneInjected(registry: Registry, cache: Cache, item: Item)
    ensures var injected := Injected(registry, cache, [item]);
            if ResolvesSomewhere(registry, cache, item) then
              |injected| == 1 && IsClusterFor(registry, cache, injected[0], item)
            else injected == []
  {
    hide Selects, IsClusterOf, Injected;
    var namespace := if item.ref.namespace.Some? then item.ref.namespace.value else item.routeNamespace;
    ReferenceInjectsExactly(registry, cache, item, namespace);
  }

  /** The injected clusters are exactly those of the references that resolve, in order. */
  lemma {:induction false} InjectedExactly(registry: Registry, cache: Cache, items: seq<Item>) returns (kept: seq<nat>)
    ensures AreKept(kept, |items|, Resolving(registry, cache, items))
    ensures var injected := Injected(registry, cache, items);
            && |injected| == |kept|
            && forall j | 0 <= j < |kept| ::
                 kept[j] < |items| && IsClusterFor(registry, cache, injected[j], items[kept[j]])
  {
    hide Injected, AreKept, ResolvesSomewhere, IsClusterFor;
    var keep := Resolving(registry, cache, items);
    if items == [] {
      kept := [];
      NothingKept(keep);
      NothingInjectsNothing(registry, cache);
    } else {
      var n := |items| - 1;
      var front, last := items[..n], items[n];
      var before := InjectedExactly(registry, cache, front);
      KeptAlike(before, n, Resolving(registry, cache, front), keep);
      KeptExtends(before, n, keep);
      assert items == front + [last];
      InjectedAppend(registry, cache, front, [last]);
      OneInjected(registry, cache, last);
      kept := if keep(n) then before + [n] else before;
    }
  }
}
