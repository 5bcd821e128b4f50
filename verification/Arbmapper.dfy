/**
 * Finding trading paths: the currency graph built from the symbols, the rotations of each cycle
 * found in it, and the filter on listed assets.
 */
module Arbmapper {
  import opened Sizing
  import opened Ledger
  import opened Runs
  import Gains
  import Settlement
  import PreciseNumber
  import Trading

  datatype SymbolInfo = SymbolInfo(name: string, baseAsset: string, quoteAsset: string)

  // A trade as the graph's edge property: which symbol, which side.
  datatype Hop = Hop(symbol: SymbolInfo, position: Position) {
    function Used(): string { if position.Long? then symbol.quoteAsset else symbol.baseAsset }

    function Recv(): string { if position.Long? then symbol.baseAsset else symbol.quoteAsset }
  }

  datatype Edge = Edge(src: nat, dst: nat, hop: Hop)

  // Vertices are numbered; vertex v stands for assets[v].
  datatype Graph = Graph(assets: seq<string>, edges: seq<Edge>)

  // An edge leads from the asset its trade spends to the asset it receives: a LONG trade spends the
  // quote asset for the base asset, a SHORT trade the reverse.
  ghost predicate EdgeFits(assets: seq<string>, e: Edge) {
    && e.src < |assets| && e.dst < |assets|
    && (e.hop.position.Long? ==> assets[e.src] == e.hop.symbol.quoteAsset && assets[e.dst] == e.hop.symbol.baseAsset)
    && (e.hop.position.Short? ==> assets[e.src] == e.hop.symbol.baseAsset && assets[e.dst] == e.hop.symbol.quoteAsset)
  }

  ghost predicate GraphFits(g: Graph) {
    Distinct(g.assets) && forall k :: 0 <= k < |g.edges| ==> EdgeFits(g.assets, g.edges[k])
  }

  ghost predicate HasHop(edges: seq<Edge>, hop: Hop) { exists e :: e in edges && e.hop == hop }

  // Position i of a cycle of length n, for i up to one turn beyond the end.
  function Around(i: nat, n: nat): (r: nat)
    requires i < 2 * n
    ensures r == i % n
  {
    PreciseNumber.RemainderUnique(i, n, if i < n then 0 else 1, if i < n then i else i - n);
    if i < n then i else i - n
  }

  // ----- building the graph -----

  ghost predicate AssetOfSome(symbols: seq<SymbolInfo>, a: string) {
    exists i :: 0 <= i < |symbols| && (a == symbols[i].baseAsset || a == symbols[i].quoteAsset)
  }

  lemma AssetsOfSymbol(symbols: seq<SymbolInfo>, n: nat)
    requires n < |symbols|
    ensures AssetOfSome(symbols, symbols[n].baseAsset) && AssetOfSome(symbols, symbols[n].quoteAsset)
  {
  }

  lemma AllCollected(symbols: seq<SymbolInfo>, assets: seq<string>, vertexMap: map<string, nat>)
    requires forall a :: a in vertexMap ==> vertexMap[a] < |assets| && assets[vertexMap[a]] == a
    requires forall i :: 0 <= i < |symbols| ==> symbols[i].baseAsset in vertexMap && symbols[i].quoteAsset in vertexMap
    requires forall v :: 0 <= v < |assets| ==> AssetOfSome(symbols, assets[v])
    ensures forall a :: a in assets <==> AssetOfSome(symbols, a)
  {
  }

  // The distinct assets of the symbols, with the vertex each one got.
  method CollectAssets(symbols: seq<SymbolInfo>) returns (assets: seq<string>, vertexMap: map<string, nat>)
    ensures Distinct(assets)
    ensures forall a :: a in vertexMap ==> vertexMap[a] < |assets| && assets[vertexMap[a]] == a
    ensures forall i :: 0 <= i < |symbols| ==> symbols[i].baseAsset in vertexMap && symbols[i].quoteAsset in vertexMap
    ensures forall a :: a in assets <==> AssetOfSome(symbols, a)
  {
    hide AssetOfSome;
    assets, vertexMap := [], map[];
    for n := 0 to |symbols|
      invariant Distinct(assets)
      invariant forall i :: 0 <= i < |assets| ==> assets[i] in vertexMap
      invariant forall a :: a in vertexMap ==> vertexMap[a] < |assets| && assets[vertexMap[a]] == a
      invariant forall i :: 0 <= i < n ==> symbols[i].baseAsset in vertexMap && symbols[i].quoteAsset in vertexMap
      invariant forall v :: 0 <= v < |assets| ==> AssetOfSome(symbols, assets[v])
    {
      AssetsOfSymbol(symbols, n);
      if symbols[n].baseAsset !in vertexMap {
        vertexMap := vertexMap[symbols[n].baseAsset := |assets|];
        assets := assets + [symbols[n].baseAsset];
      }
      if symbols[n].quoteAsset !in vertexMap {
        vertexMap := vertexMap[symbols[n].quoteAsset := |assets|];
        assets := assets + [symbols[n].quoteAsset];
      }
    }
    AllCollected(symbols, assets, vertexMap);
  }

  lemma HopsAppended(edges: seq<Edge>, long: Edge, short: Edge, hop: Hop)
    ensures HasHop(edges, hop) || hop == long.hop || hop == short.hop ==> HasHop(edges + [long, short], hop)
  {
    var all := edges + [long, short];
    assert all[|edges|] == long && all[|edges| + 1] == short;
    if HasHop(edges, hop) {
      var e :| e in edges && e.hop == hop;
      assert e in all;
    }
  }

  // One vertex per asset of the symbols; every symbol gives one LONG and one SHORT edge, and there
  // are no others.
  method BuildGraph(symbols: seq<SymbolInfo>) returns (g: Graph)
    ensures GraphFits(g) && |g.edges| == 2 * |symbols|
    ensures forall a :: a in g.assets <==> AssetOfSome(symbols, a)
    ensures forall i :: 0 <= i < |symbols| ==>
      HasHop(g.edges, Hop(symbols[i], Long)) && HasHop(g.edges, Hop(symbols[i], Short))
    ensures forall k :: 0 <= k < |g.edges| ==> g.edges[k].hop.symbol in symbols
  {
    var assets, vertexMap := CollectAssets(symbols);
    var edges: seq<Edge> := [];
    for n := 0 to |symbols|
      invariant |edges| == 2 * n
      invariant forall k :: 0 <= k < |edges| ==> EdgeFits(assets, edges[k]) && edges[k].hop.symbol in symbols
      invariant forall i :: 0 <= i < n ==> HasHop(edges, Hop(symbols[i], Long)) && HasHop(edges, Hop(symbols[i], Short))
    {
      var symbol := symbols[n];
      var base, quote := vertexMap[symbol.baseAsset], vertexMap[symbol.quoteAsset];
      var long, short := Edge(quote, base, Hop(symbol, Long)), Edge(base, quote, Hop(symbol, Short));
      forall i | 0 <= i <= n
        ensures HasHop(edges + [long, short], Hop(symbols[i], Long))
             && HasHop(edges + [long, short], Hop(symbols[i], Short))
      {
        HopsAppended(edges, long, short, Hop(symbols[i], Long));
        HopsAppended(edges, long, short, Hop(symbols[i], Short));
      }
      assert EdgeFits(assets, long) && EdgeFits(assets, short);
      hide HasHop, EdgeFits;
      edges := edges + [long, short];
    }
    g := Graph(assets, edges);
  }

  // ----- visiting a cycle -----

  ghost predicate Joins(g: Graph, hop: Hop, u: nat, v: nat) {
    exists k :: 0 <= k < |g.edges| && g.edges[k] == Edge(u, v, hop)
  }

  ghost predicate Adjacent(g: Graph, u: nat, v: nat) {
    exists k :: 0 <= k < |g.edges| && g.edges[k].src == u && g.edges[k].dst == v
  }

  datatype Lookup = Absent | Found(hop: Hop)

  method FindEdge(g: Graph, u: nat, v: nat) returns (r: Lookup)
    ensures r.Found? <==> Adjacent(g, u, v)
    ensures r.Found? ==> Joins(g, r.hop, u, v)
  {
    for k := 0 to |g.edges|
      invariant forall j :: 0 <= j < k ==> !(g.edges[j].src == u && g.edges[j].dst == v)
    {
      if g.edges[k].src == u && g.edges[k].dst == v {
        assert g.edges[k] == Edge(u, v, g.edges[k].hop);
        return Found(g.edges[k].hop);
      }
    }
    return Absent;
  }

  function Rotation<T>(xs: seq<T>, k: nat): seq<T>
    requires k <= |xs|
  {
    xs[k..] + xs[..k]
  }

  method RotateCopy(hops: seq<Hop>, middle: nat) returns (result: seq<Hop>)
    requires middle <= |hops|
    ensures result == Rotation(hops, middle)
  {
    result := [];
    for i := middle to |hops|
      invariant result == hops[middle..i]
    {
      result := result + [Hop(hops[i].symbol, hops[i].position)];
    }
    for i := 0 to middle
      invariant result == hops[middle..] + hops[..i]
    {
      result := result + [Hop(hops[i].symbol, hops[i].position)];
    }
  }

  // A simple cycle of the graph: distinct vertices, each joined to the next around.
  ghost predicate SimpleCycle(g: Graph, path: seq<nat>) {
    && path != []
    && (forall i, j :: 0 <= i < j < |path| ==> path[i] != path[j])
    && forall i :: 0 <= i < |path| ==> Adjacent(g, path[i], path[Around(i + 1, |path|)])
  }

  // Leg i of the trade path goes from vertex i to the next one.
  ghost predicate Follows(g: Graph, path: seq<nat>, hops: seq<Hop>) {
    |hops| == |path| && forall i :: 0 <= i < |path| ==> Joins(g, hops[i], path[i], path[Around(i + 1, |path|)])
  }

  // The visitor: collect the trades along the vertices (a missing edge is skipped), then append
  // every rotation of them to the cycles found so far.
  method VisitCycle(g: Graph, path: seq<nat>, cycles: seq<seq<Hop>>) returns (r: seq<seq<Hop>>, hops: seq<Hop>)
    ensures |hops| <= |path| && |r| == |cycles| + |hops| && r[..|cycles|] == cycles
    ensures forall k :: 0 <= k < |hops| ==> r[|cycles| + k] == Rotation(hops, k)
    ensures SimpleCycle(g, path) ==> Follows(g, path, hops)
  {
    hops := [];
    for i := 0 to |path|
      invariant |hops| <= i
      invariant SimpleCycle(g, path) ==> |hops| == i
      invariant SimpleCycle(g, path) ==> forall j :: 0 <= j < i ==> Joins(g, hops[j], path[j], path[Around(j + 1, |path|)])
    {
      var edge := FindEdge(g, path[i], path[(i + 1) % |path|]);
      if edge.Found? {
        hops := hops + [edge.hop];
      }
    }
    r := cycles;
    for k := 0 to |hops|
      invariant |r| == |cycles| + k && r[..|cycles|] == cycles
      invariant forall j :: 0 <= j < k ==> r[|cycles| + j] == Rotation(hops, j)
    {
      var copy := RotateCopy(hops, k);
      r := r + [copy];
    }
  }

  // ----- every emitted path is a closed currency chain -----

  lemma RotationAt<T>(xs: seq<T>, k: nat, j: nat)
    requires k < |xs| && j < |xs|
    ensures |Rotation(xs, k)| == |xs| && Rotation(xs, k)[j] == xs[Around(k + j, |xs|)]
  {
  }

  lemma HopAssets(g: Graph, hop: Hop, u: nat, v: nat)
    requires GraphFits(g) && Joins(g, hop, u, v)
    ensures u < |g.assets| && v < |g.assets| && hop.Used() == g.assets[u] && hop.Recv() == g.assets[v]
  {
  }

  lemma FollowsAt(g: Graph, path: seq<nat>, hops: seq<Hop>, i: nat)
    requires GraphFits(g) && Follows(g, path, hops) && i < |path|
    ensures path[i] < |g.assets| && path[Around(i + 1, |path|)] < |g.assets|
    ensures hops[i].Used() == g.assets[path[i]] && hops[i].Recv() == g.assets[path[Around(i + 1, |path|)]]
  {
    HopAssets(g, hops[i], path[i], path[Around(i + 1, |path|)]);
  }

  // Leg j of rotation k spends the asset of vertex k + j and receives that of vertex k + j + 1,
  // counted around the cycle.
  lemma RotationAssets(g: Graph, path: seq<nat>, hops: seq<Hop>, k: nat, j: nat)
    requires GraphFits(g) && Follows(g, path, hops) && k < |hops| && j < |hops|
    ensures var n := |path|; var u := Around(k + j, n); var v := Around(u + 1, n);
      && path[u] < |g.assets| && path[v] < |g.assets|
      && Rotation(hops, k)[j].Used() == g.assets[path[u]]
      && Rotation(hops, k)[j].Recv() == g.assets[path[v]]
  {
    RotationAt(hops, k, j);
    FollowsAt(g, path, hops, Around(k + j, |path|));
  }

  ghost predicate ClosedHops(hops: seq<Hop>) {
    && hops != []
    && (forall j :: 0 <= j < |hops| - 1 ==> hops[j].Recv() == hops[j + 1].Used())
    && hops[|hops| - 1].Recv() == hops[0].Used()
    && forall i, j :: 0 <= i < j < |hops| ==> hops[i].Used() != hops[j].Used()
  }

  lemma RotationSpendsEachOnce(g: Graph, path: seq<nat>, hops: seq<Hop>, k: nat, i: nat, j: nat)
    requires GraphFits(g) && SimpleCycle(g, path) && Follows(g, path, hops) && k < |hops| && i < j < |hops|
    ensures Rotation(hops, k)[i].Used() != Rotation(hops, k)[j].Used()
  {
    RotationAssets(g, path, hops, k, i);
    RotationAssets(g, path, hops, k, j);
    var u, v := Around(k + i, |path|), Around(k + j, |path|);
    assert u != v && path[u] != path[v];
    hide Follows, Rotation;
  }

  lemma RotationLinks(g: Graph, path: seq<nat>, hops: seq<Hop>, k: nat, j: nat)
    requires GraphFits(g) && Follows(g, path, hops) && k < |hops| && j < |hops|
    ensures Rotation(hops, k)[j].Recv() == Rotation(hops, k)[Around(j + 1, |hops|)].Used()
  {
    hide GraphFits, Rotation;
    RotationAssets(g, path, hops, k, j);
    RotationAssets(g, path, hops, k, Around(j + 1, |hops|));
  }

  lemma EveryRotationCloses(g: Graph, path: seq<nat>, hops: seq<Hop>, k: nat)
    requires GraphFits(g) && SimpleCycle(g, path) && Follows(g, path, hops) && k < |hops|
    ensures path[k] < |g.assets|
    ensures Rotation(hops, k)[0].Used() == g.assets[path[k]]
    ensures ClosedHops(Rotation(hops, k))
  {
    var n, r := |path|, Rotation(hops, k);
    RotationAssets(g, path, hops, k, 0);
    assert |hops| == n && |r| == n;
    hide GraphFits, SimpleCycle, Follows, Rotation, Hop.Used, Hop.Recv;
    forall j | 0 <= j < n
      ensures r[j].Recv() == r[Around(j + 1, n)].Used()
    {
      RotationLinks(g, path, hops, k, j);
    }
    forall i, j | 0 <= i < j < n
      ensures r[i].Used() != r[j].Used()
    {
      RotationSpendsEachOnce(g, path, hops, k, i, j);
    }
    assert r[n - 1].Recv() == r[Around(n, n)].Used();
  }

  // Any priced snapshot of a closed cycle is a closed chain in the sense of the gains theorem.
  lemma ClosedHopsPriceToClosedChain(hops: seq<Hop>, path: Path)
    requires ClosedHops(hops) && |path| == |hops|
    requires forall i :: 0 <= i < |hops| ==> path[i].usedAsset == hops[i].Used() && path[i].recvAsset == hops[i].Recv()
    ensures Gains.ClosedChain(path)
  {
  }

  // The opportunity's trades are the hops, each on a symbol object with the hop's assets.
  ghost predicate TradesHops(opp: Trading.Opportunity, hops: seq<Hop>) {
    && |opp.trades| == |hops|
    && forall i :: 0 <= i < |hops| ==>
         var t, h := opp.trades[i], hops[i];
         && t.Paired() && t.position == h.position && t.symbol.name == h.symbol.name
         && t.symbol.baseAsset == h.symbol.baseAsset && t.symbol.quoteAsset == h.symbol.quoteAsset
  }

  // Whatever prices its symbols show, an opportunity built on an emitted rotation is a closed chain
  // that starts in the asset of the rotation's first vertex.
  lemma RotationIsClosedChain(g: Graph, path: seq<nat>, hops: seq<Hop>, k: nat, opp: Trading.Opportunity)
    requires GraphFits(g) && SimpleCycle(g, path) && Follows(g, path, hops) && k < |hops|
    requires TradesHops(opp, Rotation(hops, k))
    ensures path[k] < |g.assets| && opp.Legs() != [] && opp.Legs()[0].usedAsset == g.assets[path[k]]
    ensures Gains.ClosedChain(opp.Legs())
  {
    EveryRotationCloses(g, path, hops, k);
    hide GraphFits, SimpleCycle, Follows, Rotation, Gains.ClosedChain;
    ClosedHopsPriceToClosedChain(Rotation(hops, k), opp.Legs());
  }

  // From graph to gain: in every run, an eligible opportunity built on any rotation of any simple
  // cycle, launched in step j, filled as planned and settled in step m, pays back no less than it
  // reserved in any asset, and more than it reserved in the asset of the rotation's vertex.
  lemma RotationNeverLoses(g: Graph, path: seq<nat>, hops: seq<Hop>, k: nat, opp: Trading.Opportunity,
                           states: seq<State>, events: seq<Event>, j: nat, m: nat, a: string)
    requires GraphFits(g) && SimpleCycle(g, path) && Follows(g, path, hops) && k < |hops|
    requires TradesHops(opp, Rotation(hops, k))
    requires Settlement.LaunchedAndSettled(states, events, j, m, View(opp.Legs(), opp.relativeValue, opp.commission))
    ensures path[k] < |g.assets|
    ensures var x := FreezeView(View(opp.Legs(), opp.relativeValue, opp.commission), states[j]);
      var paid := Get(states[m + 1].balance, a) - Get(states[m].balance, a);
      && x.startingAsset == g.assets[path[k]]
      && paid >= Settlement.Reservation(x, a)
      && (a == g.assets[path[k]] ==> paid > x.capacity)
  {
    var v := View(opp.Legs(), opp.relativeValue, opp.commission);
    hide GraphFits, SimpleCycle, Follows, Rotation, TradesHops, Gains.ClosedChain;
    RotationIsClosedChain(g, path, hops, k, opp);
    Settlement.LaunchNeverLoses(states, events, j, m, v, a);
  }

  // ----- the asset filter -----

  ghost predicate AllListed(cycle: seq<Hop>, assets: seq<string>) {
    forall j :: 0 <= j < |cycle| ==> cycle[j].Used() in assets && cycle[j].Recv() in assets
  }

  ghost function Kept(cycles: seq<seq<Hop>>, assets: seq<string>): seq<seq<Hop>> {
    if cycles == [] then []
    else Kept(cycles[..|cycles| - 1], assets)
         + if assets == [] || AllListed(cycles[|cycles| - 1], assets) then [cycles[|cycles| - 1]] else []
  }

  lemma {:induction false} KeptExactly(cycles: seq<seq<Hop>>, assets: seq<string>, c: seq<Hop>)
    ensures c in Kept(cycles, assets) <==> c in cycles && (assets == [] || AllListed(c, assets))
  {
    if cycles != [] {
      var last := |cycles| - 1;
      KeptExactly(cycles[..last], assets, c);
      assert cycles == cycles[..last] + [cycles[last]];
    }
  }

  // The filter works cycle by cycle, so it keeps their order, and keeps each as often as it occurs.
  lemma {:induction false} KeptConcat(xs: seq<seq<Hop>>, ys: seq<seq<Hop>>, assets: seq<string>)
    ensures Kept(xs + ys, assets) == Kept(xs, assets) + Kept(ys, assets)
    decreases |ys|
  {
    if ys == [] {
      assert xs + ys == xs;
    } else {
      var last := |ys| - 1;
      assert (xs + ys)[..|xs + ys| - 1] == xs + ys[..last];
      KeptConcat(xs, ys[..last], assets);
    }
  }

  lemma {:induction false} KeptAsOften(cycles: seq<seq<Hop>>, assets: seq<string>, c: seq<Hop>)
    ensures multiset(Kept(cycles, assets))[c]
         == if assets == [] || AllListed(c, assets) then multiset(cycles)[c] else 0
  {
    if cycles != [] {
      var last := |cycles| - 1;
      KeptAsOften(cycles[..last], assets, c);
      assert cycles == cycles[..last] + [cycles[last]];
    }
  }

  method Unlisted(cycle: seq<Hop>, assets: seq<string>) returns (r: bool)
    ensures r == !AllListed(cycle, assets)
  {
    for j := 0 to |cycle|
      invariant forall i :: 0 <= i < j ==> cycle[i].Used() in assets && cycle[i].Recv() in assets
    {
      if cycle[j].Used() !in assets || cycle[j].Recv() !in assets {
        return true;
      }
    }
    return false;
  }

  // An empty list admits every cycle; otherwise a cycle stays exactly when all its assets are listed.
  method FilterCycles(cycles: seq<seq<Hop>>, assets: seq<string>) returns (r: seq<seq<Hop>>)
    ensures r == Kept(cycles, assets)
  {
    r := [];
    for i := 0 to |cycles|
      invariant r == Kept(cycles[..i], assets)
    {
      assert cycles[..i + 1][..i] == cycles[..i];
      var drop := false;
      if assets != [] {
        drop := Unlisted(cycles[i], assets);
      }
      if !drop {
        r := r + [cycles[i]];
      }
    }
    assert cycles[..|cycles|] == cycles;
  }
}
