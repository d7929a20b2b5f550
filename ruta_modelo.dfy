/** The route utilities of the delivery-time model: filling in each road
    segment's length, speed and travel time, summing a route's length and
    time over the cheapest parallel segment of each hop, choosing the origin
    and destination candidates around a centre, and the loop that draws
    origin-destination pairs into a training set.

    Arithmetic is on `real`. The road network is a sequence of directed
    segments `u -> v` with a key, in the order the graph lists them; the
    shortest-path search itself is a parameter that returns the node path
    (or nothing when there is no path or a node is missing). */
module RutaModelo {
  import opened Wrappers
  import opened Numerals

  type Node = int

  // ---------------------------------------------------------------- edges

  /** The Python values a `maxspeed` attribute can hold. */
  datatype PyValue =
    | PyNone | PyBool(b: bool) | PyInt(i: int) | PyFloat(f: real) | PyStr(s: string) | PyList(items: seq<PyValue>)

  /** The attributes of one segment the utilities read and write; a missing
      key is `None`. `geometry` is the length of the segment's line in
      degrees. */
  datatype Edge = Edge(
    length: Option<real>, geometry: Option<real>, speedKph: Option<real>,
    maxspeed: PyValue, travelTime: Option<real>)

  /** A segment of the multigraph. */
  datatype EdgeRec = EdgeRec(u: Node, v: Node, key: nat, data: Edge)

  /** Metres per degree, the factor a geometry length is scaled by. */
  const MetresPerDegree: real := 111139.0

  /** The length written for a segment that has none. */
  const DefaultLength: real := 30.0

  /** The least divisor of the travel-time division, in metres per second. */
  const MinSpeedMps: real := 0.001

  /** The segment length after `ensure_edge_speeds`. */
  function EdgeLength(e: Edge): (l: real)
    ensures e.length.Some? ==> l == e.length.value
    ensures e.length.None? && e.geometry.Some? ==> l == e.geometry.value * MetresPerDegree
    ensures e.length.None? && e.geometry.None? ==> l == DefaultLength
  {
    if e.length.Some? then e.length.value
    else if e.geometry.Some? then e.geometry.value * MetresPerDegree
    else DefaultLength
  }

  /** `float(str(x).split()[0])` for the first element `x` of a list
      `maxspeed`; nothing stands for the exception the bare `except` turns
      into the fallback. `str` of an int or a float gives back a numeral of
      the same value; `str` of anything else is not a number. */
  function ListHeadSpeed(x: PyValue): (r: Option<real>)
    ensures x.PyInt? ==> r == Some(x.i as real)
    ensures x.PyFloat? ==> r == Some(x.f)
    ensures x.PyStr? ==> r == (match FirstToken(x.s) case None => None case Some(t) => ParseFloat(t))
    ensures x.PyNone? || x.PyBool? || x.PyList? ==> r.None?
  {
    match x
    case PyInt(i) => Some(i as real)
    case PyFloat(f) => Some(f)
    case PyStr(s) =>
      (match FirstToken(s)
       case None => None
       case Some(t) => ParseFloat(t))
    case _ => None
  }

  /** The speed chosen from `maxspeed` when a segment has no `speed_kph`:
      a non-empty list is read from its first element, a number (a bool
      included) is used as it is, a string gives its first numeral, and
      anything else gives the fallback. */
  function SpeedFromMaxspeed(m: PyValue, fallback: real): (s: real)
    ensures m.PyList? && |m.items| > 0 ==> s == ListHeadSpeed(m.items[0]).GetOr(fallback)
    ensures m.PyList? && |m.items| == 0 ==> s == fallback
    ensures m.PyBool? ==> s == (if m.b then 1.0 else 0.0)
    ensures m.PyInt? ==> s == m.i as real
    ensures m.PyFloat? ==> s == m.f
    ensures m.PyStr? && NoneSatisfy(m.s, IsDigit) ==> s == fallback
    ensures m.PyStr? && !NoneSatisfy(m.s, IsDigit) ==> Some(s) == ParseFloat(FirstNumber(m.s).value)
    ensures m.PyNone? ==> s == fallback
  {
    match m
    case PyList(items) => if |items| > 0 then ListHeadSpeed(items[0]).GetOr(fallback) else fallback
    case PyBool(b) => if b then 1.0 else 0.0
    case PyInt(i) => i as real
    case PyFloat(f) => f
    case PyStr(s) =>
      (match FirstNumber(s)
       case None => fallback
       case Some(t) => NumeralParses(t); ParseFloat(t).value)
    case PyNone => fallback
  }

  /** A string `maxspeed` that starts with a whole number, followed by
      nothing or by a unit that does not start with a digit or a point, is
      read as that number. */
  lemma NumberWithUnit(digits: string, rest: string, fallback: real)
    requires digits != [] && AllDigits(digits)
    requires rest != [] ==> !IsDigit(rest[0]) && rest[0] != '.'
    ensures SpeedFromMaxspeed(PyStr(digits + rest), fallback) == NatValue(digits) as real
  {
    var s := digits + rest;
    assert s[0] == digits[0];
    PrefixLenConcat(digits, rest, IsDigit);
    assert s[..|digits|] == digits;
    assert NumeralAt(s) == digits;
    PrefixLenConcat(digits, [], IsDigit);
    assert digits + [] == digits;
    NumeralParses(digits);
  }

  /** The speed of a segment after `ensure_edge_speeds`. */
  function EdgeSpeed(e: Edge, fallback: real): (s: real)
    ensures e.speedKph.Some? ==> s == e.speedKph.value
    ensures e.speedKph.None? ==> s == SpeedFromMaxspeed(e.maxspeed, fallback)
  {
    if e.speedKph.Some? then e.speedKph.value else SpeedFromMaxspeed(e.maxspeed, fallback)
  }

  /** `max(kph * 1000 / 3600, 1e-3)`. */
  function Divisor(kph: real): (d: real)
    ensures d >= MinSpeedMps && d >= kph * 1000.0 / 3600.0
    ensures d == MinSpeedMps || d == kph * 1000.0 / 3600.0
  {
    var mps := kph * 1000.0 / 3600.0;
    if mps >= MinSpeedMps then mps else MinSpeedMps
  }

  /** The travel time in seconds of `length` metres at `kph`: the time at
      that speed, or at 1 mm/s when the speed is lower than that. */
  function TravelTime(length: real, kph: real): (t: real)
    ensures t * Divisor(kph) == length
  {
    length / Divisor(kph)
  }

  /** A segment's attributes after `ensure_edge_speeds`. */
  function NormalizeEdge(e: Edge, fallback: real): (r: Edge)
    ensures r.length == Some(EdgeLength(e)) && r.speedKph == Some(EdgeSpeed(e, fallback))
    ensures r.travelTime == Some(TravelTime(EdgeLength(e), EdgeSpeed(e, fallback)))
    ensures r.geometry == e.geometry && r.maxspeed == e.maxspeed
  {
    var len := EdgeLength(e);
    var kph := EdgeSpeed(e, fallback);
    e.(length := Some(len), speedKph := Some(kph), travelTime := Some(TravelTime(len, kph)))
  }

  /** Running the normalisation again, with any fallback, changes nothing. */
  lemma NormalizeEdgeIdempotent(e: Edge, fallback: real, fallback2: real)
    ensures NormalizeEdge(NormalizeEdge(e, fallback), fallback2) == NormalizeEdge(e, fallback)
  {
  }

  /** `ensure_edge_speeds`: every segment's attributes are normalised in place. */
  method EnsureEdgeSpeeds(g: array<EdgeRec>, fallback: real)
    modifies g
    ensures forall i :: 0 <= i < g.Length ==>
      g[i] == old(g[i]).(data := NormalizeEdge(old(g[i]).data, fallback))
    ensures forall i :: 0 <= i < g.Length ==>
      g[i].data.length.Some? && g[i].data.speedKph.Some? && g[i].data.travelTime.Some?
  {
    var n := 0;
    while n < g.Length
      invariant 0 <= n <= g.Length
      invariant forall i :: 0 <= i < n ==> g[i] == old(g[i]).(data := NormalizeEdge(old(g[i]).data, fallback))
      invariant forall i :: n <= i < g.Length ==> g[i] == old(g[i])
    {
      var e := g[n].data;
      var len := if e.length.Some? then e.length.value
                 else if e.geometry.Some? then e.geometry.value * MetresPerDegree
                 else DefaultLength;
      var kph := if e.speedKph.Some? then e.speedKph.value else SpeedFromMaxspeed(e.maxspeed, fallback);
      var mps := kph * 1000.0 / 3600.0;
      var tt := len / (if mps >= MinSpeedMps then mps else MinSpeedMps);
      g[n] := g[n].(data := e.(length := Some(len), speedKph := Some(kph), travelTime := Some(tt)));
      n := n + 1;
    }
  }

  // ---------------------------------------------------------------- routes

  /** The attribute a route is weighted by. */
  datatype WeightKey = ByLength | ByTravelTime

  /** `data.get(weight, inf)`: nothing stands for infinity. */
  function WeightOf(e: Edge, w: WeightKey): Option<real> {
    if w == ByLength then e.length else e.travelTime
  }

  /** `x < y` where nothing is infinity. */
  predicate Below(x: Option<real>, y: Option<real>) {
    x.Some? && (y.None? || x.value < y.value)
  }

  /** The data of the parallel segments `u -> v`, in the graph's order. */
  function Parallel(g: seq<EdgeRec>, u: Node, v: Node): (es: seq<Edge>)
    ensures |es| <= |g|
  {
    if g == [] then []
    else if g[0].u == u && g[0].v == v then [g[0].data] + Parallel(g[1..], u, v)
    else Parallel(g[1..], u, v)
  }

  /** The parallel segments of a graph without negative weights have none. */
  lemma {:induction false} ParallelNonNeg(g: seq<EdgeRec>, u: Node, v: Node)
    requires NonNegWeights(g)
    ensures NonNegEdges(Parallel(g, u, v))
  {
    if g != [] {
      forall i | 0 <= i < |g| - 1 ensures GoodWeights(g[1..][i].data) {
        assert g[1..][i] == g[i + 1];
      }
      ParallelNonNeg(g[1..], u, v);
    }
  }

  /** A single segment is parallel to `u -> v` exactly when it joins them. */
  lemma ParallelOne(r: EdgeRec, u: Node, v: Node)
    ensures Parallel([r], u, v) == if r.u == u && r.v == v then [r.data] else []
  {
    assert [r][1..] == [];
  }

  /** The parallel segments of two parts of the graph are those of each
      part, in the graph's order: together with `ParallelOne` this says the
      result is exactly the data of the segments `u -> v`, in order and with
      repetitions. */
  lemma {:induction false} ParallelAppend(a: seq<EdgeRec>, b: seq<EdgeRec>, u: Node, v: Node)
    ensures Parallel(a + b, u, v) == Parallel(a, u, v) + Parallel(b, u, v)
  {
    if a == [] {
      assert a + b == b;
    } else {
      assert (a + b)[0] == a[0] && (a + b)[1..] == a[1..] + b;
      ParallelAppend(a[1..], b, u, v);
    }
  }

  /** A segment whose length and travel time, where present, are not negative. */
  predicate GoodWeights(e: Edge) {
    e.length.GetOr(0.0) >= 0.0 && e.travelTime.GetOr(0.0) >= 0.0
  }

  predicate NonNegEdges(es: seq<Edge>) {
    forall i :: 0 <= i < |es| ==> GoodWeights(es[i])
  }

  /** No segment of the graph has a negative length or travel time. */
  predicate NonNegWeights(g: seq<EdgeRec>) {
    forall i :: 0 <= i < |g| ==> GoodWeights(g[i].data)
  }

  /** The weight of the chosen segment, or infinity when none is chosen. */
  function BestWeight(es: seq<Edge>, b: Option<nat>, w: WeightKey): Option<real>
    requires b.Some? ==> b.value < |es|
  {
    if b.None? then None else WeightOf(es[b.value], w)
  }

  /** The segment the inner loop has chosen after looking at the first `n`:
      the first one of least weight, and none while every weight is missing. */
  function BestPrefix(es: seq<Edge>, n: nat, w: WeightKey): (b: Option<nat>)
    requires n <= |es|
    ensures b.Some? ==> b.value < n
  {
    if n == 0 then None
    else
      var b := BestPrefix(es, n - 1, w);
      if Below(WeightOf(es[n - 1], w), BestWeight(es, b, w)) then Some(n - 1) else b
  }

  /** The chosen segment is the first one of least weight among the first
      `n`, and none is chosen exactly when all their weights are missing. */
  lemma {:induction false} BestIsFirstMinimum(es: seq<Edge>, n: nat, w: WeightKey)
    requires n <= |es|
    ensures var b := BestPrefix(es, n, w);
      && (b.None? <==> forall j :: 0 <= j < n ==> WeightOf(es[j], w).None?)
      && (b.Some? ==> WeightOf(es[b.value], w).Some?)
      && (b.Some? ==> forall j :: 0 <= j < n ==> !Below(WeightOf(es[j], w), WeightOf(es[b.value], w)))
      && (b.Some? ==> forall j :: 0 <= j < b.value ==> Below(WeightOf(es[b.value], w), WeightOf(es[j], w)))
  {
    if n > 0 {
      BestIsFirstMinimum(es, n - 1, w);
    }
  }

  /** What one hop `u -> v` adds to the route's totals. */
  datatype Totals = Totals(dist: real, tsec: real)

  function Add(a: Totals, b: Totals): Totals {
    Totals(a.dist + b.dist, a.tsec + b.tsec)
  }

  /** The chosen segment's `length` and `travel_time`, each 0 when missing,
      or nothing added when no parallel segment has a weight. */
  function Hop(g: seq<EdgeRec>, u: Node, v: Node, w: WeightKey): (h: Totals)
    ensures Parallel(g, u, v) == [] ==> h == Totals(0.0, 0.0)
  {
    var es := Parallel(g, u, v);
    match BestPrefix(es, |es|, w)
    case None => Totals(0.0, 0.0)
    case Some(k) => Totals(es[k].length.GetOr(0.0), es[k].travelTime.GetOr(0.0))
  }

  /** The totals of a node path, summed hop by hop with `hop`. */
  function SumHops(hop: (Node, Node) -> Totals, p: seq<Node>): (t: Totals)
    ensures |p| < 2 ==> t == Totals(0.0, 0.0)
  {
    if |p| < 2 then Totals(0.0, 0.0)
    else Add(SumHops(hop, p[..|p| - 1]), hop(p[|p| - 2], p[|p| - 1]))
  }

  /** A path of two or more nodes adds its first hop to the totals of the
      rest. */
  lemma {:induction false} SumHopsFront(hop: (Node, Node) -> Totals, p: seq<Node>)
    requires |p| >= 2
    ensures SumHops(hop, p) == Add(hop(p[0], p[1]), SumHops(hop, p[1..]))
  {
    var q := p[..|p| - 1];
    var r := p[1..];
    if |p| > 2 {
      SumHopsFront(hop, q);
      assert q[1..] == r[..|r| - 1];
      assert r[|r| - 2] == p[|p| - 2] && r[|r| - 1] == p[|p| - 1];
    }
  }

  /** Extending a route by its next node adds that hop. */
  lemma RouteTotalsExtend(g: seq<EdgeRec>, p: seq<Node>, i: nat, w: WeightKey)
    requires i + 1 < |p|
    ensures RouteTotals(g, p[..i + 2], w) == Add(RouteTotals(g, p[..i + 1], w), Hop(g, p[i], p[i + 1], w))
  {
    var q := p[..i + 2];
    assert q[..|q| - 1] == p[..i + 1];
    assert q[|q| - 2] == p[i] && q[|q| - 1] == p[i + 1];
  }

  /** The totals of a node path in `g`, weighted by `w`. */
  function RouteTotals(g: seq<EdgeRec>, p: seq<Node>, w: WeightKey): (t: Totals)
    ensures |p| < 2 ==> t == Totals(0.0, 0.0)
  {
    SumHops((u, v) => Hop(g, u, v, w), p)
  }

  /** A hop in a graph without negative weights adds no negative amount. */
  lemma HopNonNeg(g: seq<EdgeRec>, u: Node, v: Node, w: WeightKey)
    requires NonNegWeights(g)
    ensures Hop(g, u, v, w).dist >= 0.0 && Hop(g, u, v, w).tsec >= 0.0
  {
    var es := Parallel(g, u, v);
    ParallelNonNeg(g, u, v);
    var b := BestPrefix(es, |es|, w);
    if b.Some? {
      assert GoodWeights(es[b.value]);
    }
  }

  /** Summing hops that are never negative gives no negative totals. */
  lemma {:induction false} SumHopsNonNeg(hop: (Node, Node) -> Totals, p: seq<Node>)
    requires forall a, b :: hop(a, b).dist >= 0.0 && hop(a, b).tsec >= 0.0
    ensures SumHops(hop, p).dist >= 0.0 && SumHops(hop, p).tsec >= 0.0
  {
    if |p| >= 2 {
      SumHopsNonNeg(hop, p[..|p| - 1]);
      assert hop(p[|p| - 2], p[|p| - 1]).dist >= 0.0;
    }
  }

  /** A route in a graph without negative weights has a distance and a time
      that are not negative. */
  lemma RouteTotalsNonNeg(g: seq<EdgeRec>, p: seq<Node>, w: WeightKey)
    requires NonNegWeights(g)
    ensures RouteTotals(g, p, w).dist >= 0.0 && RouteTotals(g, p, w).tsec >= 0.0
  {
    forall a, b ensures Hop(g, a, b, w).dist >= 0.0 && Hop(g, a, b, w).tsec >= 0.0 {
      HopNonNeg(g, a, b, w);
    }
    SumHopsNonNeg((u, v) => Hop(g, u, v, w), p);
  }

  /** When the `k`-th parallel segment has a weight, none is lighter and
      every earlier one is heavier, the hop adds that segment's length and
      travel time: the first segment of least weight is the one used. */
  lemma HopOfLeast(g: seq<EdgeRec>, u: Node, v: Node, w: WeightKey, k: nat)
    requires var es := Parallel(g, u, v);
      && k < |es| && WeightOf(es[k], w).Some?
      && (forall j :: 0 <= j < |es| ==> !Below(WeightOf(es[j], w), WeightOf(es[k], w)))
      && (forall j :: 0 <= j < k ==> Below(WeightOf(es[k], w), WeightOf(es[j], w)))
    ensures var es := Parallel(g, u, v);
      Hop(g, u, v, w) == Totals(es[k].length.GetOr(0.0), es[k].travelTime.GetOr(0.0))
  {
    var es := Parallel(g, u, v);
    BestIsFirstMinimum(es, |es|, w);
  }

  /** A hop whose parallel segments all lack the weight adds nothing. */
  lemma HopUnweighted(g: seq<EdgeRec>, u: Node, v: Node, w: WeightKey)
    requires forall e :: e in Parallel(g, u, v) ==> WeightOf(e, w).None?
    ensures Hop(g, u, v, w) == Totals(0.0, 0.0)
  {
    var es := Parallel(g, u, v);
    BestIsFirstMinimum(es, |es|, w);
    assert forall j :: 0 <= j < |es| ==> WeightOf(es[j], w).None? by {
      forall j | 0 <= j < |es| ensures WeightOf(es[j], w).None? {
        assert es[j] in es;
      }
    }
  }

  /** A path's totals are those of its two halves split at any node. */
  lemma {:induction false} SumHopsSplit(hop: (Node, Node) -> Totals, p: seq<Node>, i: nat)
    requires i < |p|
    ensures SumHops(hop, p) == Add(SumHops(hop, p[..i + 1]), SumHops(hop, p[i..]))
  {
    if i == |p| - 1 {
      assert p[..i + 1] == p;
    } else {
      var q := p[..|p| - 1];
      var r := p[i..];
      SumHopsSplit(hop, q, i);
      assert q[..i + 1] == p[..i + 1];
      assert r[..|r| - 1] == q[i..];
      assert r[|r| - 2] == p[|p| - 2] && r[|r| - 1] == p[|p| - 1];
    }
  }

  /** A route's totals are those of its two halves split at any node; a
      one-node route has nothing to add. */
  lemma RouteSplit(g: seq<EdgeRec>, p: seq<Node>, i: nat, w: WeightKey)
    requires i < |p|
    ensures RouteTotals(g, p, w) == Add(RouteTotals(g, p[..i + 1], w), RouteTotals(g, p[i..], w))
    ensures RouteTotals(g, [p[i]], w) == Totals(0.0, 0.0)
  {
    SumHopsSplit((u, v) => Hop(g, u, v, w), p, i);
  }

  /** The inner loop of `shortest_route_stats`: a segment replaces the
      choice only when its weight is strictly below the chosen one's. */
  method PickBest(es: seq<Edge>, w: WeightKey) returns (best: Option<nat>)
    ensures best == BestPrefix(es, |es|, w)
  {
    best := None;
    var bestW: Option<real> := None;
    var k := 0;
    while k < |es|
      invariant 0 <= k <= |es|
      invariant best == BestPrefix(es, k, w) && bestW == BestWeight(es, best, w)
    {
      var wk := WeightOf(es[k], w);
      if Below(wk, bestW) {
        bestW := wk;
        best := Some(k);
      }
      k := k + 1;
    }
  }

  /** One pass of the hop loop of `shortest_route_stats`: the chosen
      parallel segment's length and travel time are added to the running
      totals. */
  method AddHop(g: seq<EdgeRec>, u: Node, v: Node, w: WeightKey, dist: real, tsec: real)
    returns (dist': real, tsec': real)
    ensures Totals(dist', tsec') == Add(Totals(dist, tsec), Hop(g, u, v, w))
  {
    var es := Parallel(g, u, v);
    var best := PickBest(es, w);
    dist', tsec' := dist, tsec;
    if best.Some? {
      dist' := dist' + es[best.value].length.GetOr(0.0);
      tsec' := tsec' + es[best.value].travelTime.GetOr(0.0);
    }
  }

  /** The result of `shortest_route_stats`: no route (with NaN totals), or the path with its totals. */
  datatype RouteStats = NoRoute | Route(path: seq<Node>, dist: real, tsec: real)

  /** `shortest_route_stats` for the path the search returned: for each hop
      the first parallel segment of least weight is chosen, and its length
      and travel time are summed. */
  method ShortestRouteStats(g: seq<EdgeRec>, path: Option<seq<Node>>, w: WeightKey) returns (r: RouteStats)
    ensures path.None? ==> r == NoRoute
    ensures path.Some? ==>
      r == Route(path.value, RouteTotals(g, path.value, w).dist, RouteTotals(g, path.value, w).tsec)
  {
    if path.None? {
      return NoRoute;
    }
    var p := path.value;
    var dist := 0.0;
    var tsec := 0.0;
    var i := 0;
    while i < |p| - 1
      invariant 0 <= i <= if |p| == 0 then 0 else |p| - 1
      invariant |p| > 0 ==> Totals(dist, tsec) == RouteTotals(g, p[..i + 1], w)
      invariant |p| == 0 ==> dist == 0.0 && tsec == 0.0
    {
      dist, tsec := AddHop(g, p[i], p[i + 1], w, dist, tsec);
      RouteTotalsExtend(g, p, i, w);
      i := i + 1;
    }
    ghost var t := RouteTotals(g, p, w);
    if |p| > 0 {
      assert p[..|p|] == p;
    }
    assert dist == t.dist && tsec == t.tsec;
    r := Route(p, dist, tsec);
  }

  // ---------------------------------------------------------------- nodes

  /** A node with its distance to the centre in metres. */
  datatype NodeInfo = NodeInfo(id: Node, distCenter: real)

  /** The nodes within `radius` of the centre, in order. */
  function WithinRadius(nodes: seq<NodeInfo>, radius: real): (r: seq<NodeInfo>)
    ensures |r| <= |nodes|
    ensures forall x :: x in r <==> x in nodes && x.distCenter <= radius
  {
    if nodes == [] then []
    else
      assert nodes == [nodes[0]] + nodes[1..];
      if nodes[0].distCenter <= radius then [nodes[0]] + WithinRadius(nodes[1..], radius)
      else WithinRadius(nodes[1..], radius)
  }

  /** A single node is kept exactly when it lies within the radius. */
  lemma WithinRadiusOne(x: NodeInfo, radius: real)
    ensures WithinRadius([x], radius) == if x.distCenter <= radius then [x] else []
  {
    assert [x][1..] == [];
  }

  /** Filtering two parts of the table is filtering each, in the table's
      order: with `WithinRadiusOne` this says the rows kept are those within
      the radius, in order and with their repetitions, so the positions the
      sampler draws refer to them as the data frame's rows. */
  lemma {:induction false} WithinRadiusAppend(a: seq<NodeInfo>, b: seq<NodeInfo>, radius: real)
    ensures WithinRadius(a + b, radius) == WithinRadius(a, radius) + WithinRadius(b, radius)
  {
    if a == [] {
      assert a + b == b;
    } else {
      assert (a + b)[0] == a[0] && (a + b)[1..] == a[1..] + b;
      WithinRadiusAppend(a[1..], b, radius);
    }
  }

  /** The fewest nodes within the radius that are used without falling back. */
  const MinCandidates := 10

  /** The rows `pick_random_nodes` samples from. */
  function Candidates(nodes: seq<NodeInfo>, radius: real): (c: seq<NodeInfo>)
    ensures |c| <= |nodes| && forall x :: x in c ==> x in nodes
    ensures c == nodes || |c| >= MinCandidates
  {
    var sub := WithinRadius(nodes, radius);
    if |sub| < MinCandidates then nodes else sub
  }

  /** With fewer than ten nodes within the radius every node is a candidate;
      otherwise exactly the nodes within the radius are. */
  lemma CandidatesChoice(nodes: seq<NodeInfo>, radius: real)
    ensures |WithinRadius(nodes, radius)| < MinCandidates ==> Candidates(nodes, radius) == nodes
    ensures |WithinRadius(nodes, radius)| >= MinCandidates ==>
      |Candidates(nodes, radius)| >= MinCandidates
      && forall x :: x in Candidates(nodes, radius) <==> x in nodes && x.distCenter <= radius
  {
  }

  function Min(a: nat, b: nat): nat { if a <= b then a else b }

  /** The row positions a sample of `k` out of `n` rows draws: distinct and in range. */
  predicate IsSample(sample: seq<nat>, n: nat, k: nat) {
    |sample| == k
    && (forall i :: 0 <= i < k ==> sample[i] < n)
    && (forall i, j :: 0 <= i < j < k ==> sample[i] != sample[j])
  }

  /** `pick_random_nodes` with the sampler's draw given as `sample`. */
  function PickRandomNodes(nodes: seq<NodeInfo>, maxNodes: nat, radius: real, sample: seq<nat>): (r: seq<Node>)
    requires var n := |Candidates(nodes, radius)|; IsSample(sample, n, Min(maxNodes, n))
    ensures |r| == Min(maxNodes, |Candidates(nodes, radius)|)
    ensures forall i :: 0 <= i < |r| ==> r[i] == Candidates(nodes, radius)[sample[i]].id
  {
    var sub := Candidates(nodes, radius);
    seq(|sample|, i requires 0 <= i < |sample| => sub[sample[i]].id)
  }

  /** No two entries share a node identifier. */
  predicate DistinctIds(nodes: seq<NodeInfo>) {
    forall i, j :: 0 <= i < j < |nodes| ==> nodes[i].id != nodes[j].id
  }

  /** Distinct node identifiers give distinct picks. */
  lemma PicksDistinct(nodes: seq<NodeInfo>, maxNodes: nat, radius: real, sample: seq<nat>)
    requires var n := |Candidates(nodes, radius)|; IsSample(sample, n, Min(maxNodes, n))
    requires DistinctIds(nodes)
    ensures var r := PickRandomNodes(nodes, maxNodes, radius, sample);
            forall i, j :: 0 <= i < j < |r| ==> r[i] != r[j]
  {
    var sub := Candidates(nodes, radius);
    WithinRadiusDistinct(nodes, radius);
    assert DistinctIds(sub);
    var r := PickRandomNodes(nodes, maxNodes, radius, sample);
    forall i, j | 0 <= i < j < |r| ensures r[i] != r[j] {
      assert sample[i] != sample[j];
      if sample[i] < sample[j] {
        assert sub[sample[i]].id != sub[sample[j]].id;
      } else {
        assert sub[sample[j]].id != sub[sample[i]].id;
      }
    }
  }

  /** Filtering keeps identifiers distinct. */
  lemma {:induction false} WithinRadiusDistinct(nodes: seq<NodeInfo>, radius: real)
    requires DistinctIds(nodes)
    ensures DistinctIds(WithinRadius(nodes, radius))
  {
    if nodes != [] {
      var t := nodes[1..];
      assert DistinctIds(t) by {
        forall i, j | 0 <= i < j < |t| ensures t[i].id != t[j].id {
          assert t[i] == nodes[i + 1] && t[j] == nodes[j + 1];
        }
      }
      WithinRadiusDistinct(t, radius);
      var rt := WithinRadius(t, radius);
      var r := WithinRadius(nodes, radius);
      if nodes[0].distCenter <= radius {
        assert r == [nodes[0]] + rt;
        forall i, j | 0 <= i < j < |r| ensures r[i].id != r[j].id {
          if i == 0 {
            assert r[j] == rt[j - 1] && rt[j - 1] in t;
            var m :| 0 <= m < |t| && t[m] == r[j];
            assert nodes[m + 1] == t[m];
          } else {
            assert r[i] == rt[i - 1] && r[j] == rt[j - 1];
          }
        }
      } else {
        assert r == rt;
      }
    }
  }

  // ---------------------------------------------------------------- dataset

  /** One attempt's random draws: two distinct positions among the
      candidates, whether it is Thursday, the uniform draw of the congestion
      factor and the normal draw of the noise factor. */
  datatype Draw = Draw(oi: nat, di: nat, thursday: bool, u: real, noise: real)

  /** A row of the training set. */
  datatype Row = Row(
    orig: Node, dest: Node, distM: real, baseTimeSec: real, timeRealSec: real,
    isThursday: bool, feriaActive: bool)

  /** `simulate_dataset`'s result: the `RuntimeError` raised for too few candidates, or the rows. */
  datatype Dataset = TooFewNodes | Rows(rows: seq<Row>)

  /** The slowdown applied to a route's time: 20-60 % on a market day,
      0-10 % otherwise, for `u` in [0, 1). */
  function FeriaFactor(thursday: bool, u: real): (f: real)
    ensures 0.0 <= u < 1.0 && thursday ==> 1.2 <= f < 1.6
    ensures 0.0 <= u < 1.0 && !thursday ==> 1.0 <= f < 1.1
  {
    if thursday then 1.0 + (0.2 + 0.4 * u) else 1.0 + (0.0 + 0.1 * u)
  }

  function Max(a: real, b: real): real { if a >= b then a else b }

  /** The least noise factor applied. */
  const MinNoise: real := 0.8

  /** The row an attempt with draw `d` appends, given the pair `o`, `dest`
      and the totals of the route in the graph of the day. */
  function RowOf(o: Node, dest: Node, d: Draw, t: Totals): Row {
    Row(o, dest, t.dist, t.tsec, t.tsec * FeriaFactor(d.thursday, d.u) * Max(d.noise, MinNoise),
        d.thursday, d.thursday)
  }

  /** The observed time is the slowed-down base time scaled by the noise,
      and at least 80 % of the slowed-down base time. */
  lemma RowTimeBounds(o: Node, dest: Node, d: Draw, t: Totals)
    requires t.tsec >= 0.0 && 0.0 <= d.u < 1.0
    ensures RowOf(o, dest, d, t).baseTimeSec == t.tsec
    ensures RowOf(o, dest, d, t).timeRealSec >= t.tsec * FeriaFactor(d.thursday, d.u) * MinNoise
    ensures d.noise <= MinNoise ==>
      RowOf(o, dest, d, t).timeRealSec == t.tsec * FeriaFactor(d.thursday, d.u) * MinNoise
  {
    var b, f, n := t.tsec, FeriaFactor(d.thursday, d.u), Max(d.noise, MinNoise);
    assert RowOf(o, dest, d, t).timeRealSec == b * f * n;
    assert b * f >= 0.0;
    MulMono(b * f, n, MinNoise);
  }

  lemma MulMono(x: real, y: real, z: real)
    requires x >= 0.0 && y >= z
    ensures x * y >= x * z
  {
    assert x * y - x * z == x * (y - z);
  }

  /** Everything one run of the loop depends on: the two graphs, the
      candidates, the requested row count, every attempt's draws and the
      path search in each graph. */
  datatype Setting = Setting(
    gNormal: seq<EdgeRec>, gFeria: seq<EdgeRec>, od: seq<Node>, nPairs: nat, draws: seq<Draw>,
    routeNormal: (Node, Node) -> Option<seq<Node>>, routeFeria: (Node, Node) -> Option<seq<Node>>)

  /** Attempts allowed per requested row. */
  const AttemptsPerPair: nat := 10

  /** The most attempts a run makes. */
  function MaxAttempts(s: Setting): nat { AttemptsPerPair * s.nPairs }

  /** There is a draw for every attempt, and each draws two distinct candidates. */
  predicate SettingOk(s: Setting) {
    |s.draws| >= MaxAttempts(s)
    && forall k :: 0 <= k < |s.draws| ==>
         s.draws[k].oi < |s.od| && s.draws[k].di < |s.od| && s.draws[k].oi != s.draws[k].di
  }

  /** What attempt `k` appends: nothing when either route is missing,
      otherwise the row of the route in the graph of the day. */
  function Attempt(s: Setting, k: nat): (r: Option<Row>)
    requires SettingOk(s) && k < |s.draws|
    ensures var d := s.draws[k];
      var o, dest := s.od[d.oi], s.od[d.di];
      r.None? <==> s.routeNormal(o, dest).None? || (if d.thursday then s.routeFeria(o, dest) else s.routeNormal(o, dest)).None?
    ensures r.Some? ==> var d := s.draws[k];
      && r.value.orig == s.od[d.oi] && r.value.dest == s.od[d.di]
      && r.value.isThursday == d.thursday && r.value.feriaActive == d.thursday
  {
    var d := s.draws[k];
    var o, dest := s.od[d.oi], s.od[d.di];
    var used := if d.thursday then s.routeFeria(o, dest) else s.routeNormal(o, dest);
    var g := if d.thursday then s.gFeria else s.gNormal;
    if s.routeNormal(o, dest).None? || used.None? then None
    else Some(RowOf(o, dest, d, RouteTotals(g, used.value, ByLength)))
  }

  /** The run from `attempts` attempts and `rows` rows on: the final rows and attempt count. */
  function Simulate(s: Setting, rows: seq<Row>, attempts: nat): (res: (seq<Row>, nat))
    requires SettingOk(s) && attempts <= MaxAttempts(s)
    ensures |rows| <= |res.0| && attempts <= res.1
    decreases MaxAttempts(s) - attempts
  {
    if |rows| < s.nPairs && attempts < MaxAttempts(s) then
      var a := Attempt(s, attempts);
      Simulate(s, if a.Some? then rows + [a.value] else rows, attempts + 1)
    else (rows, attempts)
  }

  /** A run keeps the rows it started with as a prefix, adds at most one row
      per attempt, and makes no attempt beyond the budget. */
  lemma {:induction false} SimulateExtends(s: Setting, rows: seq<Row>, attempts: nat)
    requires SettingOk(s) && attempts <= MaxAttempts(s)
    ensures var (r, n) := Simulate(s, rows, attempts);
      && r[..|rows|] == rows && n <= MaxAttempts(s) && |r| - |rows| <= n - attempts
    decreases MaxAttempts(s) - attempts
  {
    if |rows| < s.nPairs && attempts < MaxAttempts(s) {
      var a := Attempt(s, attempts);
      var rows' := if a.Some? then rows + [a.value] else rows;
      SimulateExtends(s, rows', attempts + 1);
      var r := Simulate(s, rows', attempts + 1).0;
      assert r[..|rows'|][..|rows|] == r[..|rows|];
      assert rows'[..|rows|] == rows;
    }
  }

  /** A run ends with at most the requested rows, at most ten attempts per
      requested row and no more rows than attempts, stopping at whichever
      bound it reaches first. */
  lemma {:induction false} SimulateBounds(s: Setting, rows: seq<Row>, attempts: nat)
    requires SettingOk(s) && attempts <= MaxAttempts(s)
    requires |rows| <= s.nPairs && |rows| <= attempts
    ensures var (r, n) := Simulate(s, rows, attempts);
      && |r| <= s.nPairs && attempts <= n <= MaxAttempts(s) && |r| <= n
      && (|r| == s.nPairs || n == MaxAttempts(s))
    decreases MaxAttempts(s) - attempts
  {
    if |rows| < s.nPairs && attempts < MaxAttempts(s) {
      var a := Attempt(s, attempts);
      SimulateBounds(s, if a.Some? then rows + [a.value] else rows, attempts + 1);
    }
  }

  /** When every pair has a route in both graphs, every attempt yields a
      row and the run ends with exactly the requested number. */
  lemma {:induction false} SimulateAllRoutes(s: Setting, rows: seq<Row>, attempts: nat)
    requires SettingOk(s) && attempts <= MaxAttempts(s)
    requires |rows| == attempts <= s.nPairs
    requires forall o, d :: s.routeNormal(o, d).Some? && s.routeFeria(o, d).Some?
    ensures |Simulate(s, rows, attempts).0| == s.nPairs
    decreases MaxAttempts(s) - attempts
  {
    if |rows| < s.nPairs {
      var a := Attempt(s, attempts);
      assert a.Some?;
      SimulateAllRoutes(s, rows + [a.value], attempts + 1);
    }
  }

  /** No two candidates are the same node. */
  predicate DistinctNodes(od: seq<Node>) {
    forall i, j :: 0 <= i < j < |od| ==> od[i] != od[j]
  }

  /** Every row pairs two candidates, two different ones when the candidates
      are distinct, and its market flag is its Thursday flag. */
  predicate RowsOk(rows: seq<Row>, od: seq<Node>) {
    forall i :: 0 <= i < |rows| ==>
      && rows[i].orig in od && rows[i].dest in od && rows[i].feriaActive == rows[i].isThursday
      && (DistinctNodes(od) ==> rows[i].orig != rows[i].dest)
  }

  /** The rows a run appends are well formed. */
  lemma {:induction false} SimulateRowsOk(s: Setting, rows: seq<Row>, attempts: nat)
    requires SettingOk(s) && attempts <= MaxAttempts(s)
    requires RowsOk(rows, s.od)
    ensures RowsOk(Simulate(s, rows, attempts).0, s.od)
    decreases MaxAttempts(s) - attempts
  {
    if |rows| < s.nPairs && attempts < MaxAttempts(s) {
      var a := Attempt(s, attempts);
      var d := s.draws[attempts];
      var rows' := if a.Some? then rows + [a.value] else rows;
      if a.Some? {
        var r := a.value;
        assert r.orig == s.od[d.oi] && r.dest == s.od[d.di];
        assert DistinctNodes(s.od) ==> r.orig != r.dest by {
          if DistinctNodes(s.od) {
            if d.oi < d.di {
              assert s.od[d.oi] != s.od[d.di];
            } else {
              assert s.od[d.di] != s.od[d.oi];
            }
          }
        }
        assert rows'[|rows|] == r;
        assert forall i :: 0 <= i < |rows| ==> rows'[i] == rows[i];
      }
      assert RowsOk(rows', s.od);
      SimulateRowsOk(s, rows', attempts + 1);
      assert Simulate(s, rows, attempts) == Simulate(s, rows', attempts + 1);
    } else {
      assert Simulate(s, rows, attempts) == (rows, attempts);
    }
  }

  /** The radius and the number of candidates `simulate_dataset` asks for. */
  const OdRadius: real := 1500.0
  const OdMaxNodes: nat := 150

  /** `simulate_dataset`: after drawing the candidates, attempt `k` uses
      `draws[k]`, skips the pair when either route is missing, and otherwise
      appends a row; it stops at `nPairs` rows or `10 * nPairs` attempts. */
  method SimulateDataset(
    gNormal: seq<EdgeRec>, gFeria: seq<EdgeRec>, nodes: seq<NodeInfo>, sample: seq<nat>,
    nPairs: nat, draws: seq<Draw>,
    routeNormal: (Node, Node) -> Option<seq<Node>>, routeFeria: (Node, Node) -> Option<seq<Node>>)
    returns (out: Dataset, attempts: nat)
    requires var n := |Candidates(nodes, OdRadius)|; IsSample(sample, n, Min(OdMaxNodes, n))
    requires var od := PickRandomNodes(nodes, OdMaxNodes, OdRadius, sample);
             |od| >= 2 ==> SettingOk(Setting(gNormal, gFeria, od, nPairs, draws, routeNormal, routeFeria))
    ensures var od := PickRandomNodes(nodes, OdMaxNodes, OdRadius, sample);
      && (|od| < 2 <==> out == TooFewNodes)
      && (out == TooFewNodes ==> attempts == 0)
      && (out.Rows? ==>
            (out.rows, attempts) == Simulate(Setting(gNormal, gFeria, od, nPairs, draws, routeNormal, routeFeria), [], 0))
    ensures out.Rows? ==>
      && |out.rows| <= nPairs && attempts <= AttemptsPerPair * nPairs && |out.rows| <= attempts
      && (|out.rows| == nPairs || attempts == AttemptsPerPair * nPairs)
  {
    var od := PickRandomNodes(nodes, OdMaxNodes, OdRadius, sample);
    if |od| < 2 {
      return TooFewNodes, 0;
    }
    ghost var s := Setting(gNormal, gFeria, od, nPairs, draws, routeNormal, routeFeria);
    var rows: seq<Row> := [];
    attempts := 0;
    while |rows| < nPairs && attempts < AttemptsPerPair * nPairs
      invariant attempts <= AttemptsPerPair * nPairs
      invariant Simulate(s, rows, attempts) == Simulate(s, [], 0)
      decreases AttemptsPerPair * nPairs - attempts
    {
      var d := draws[attempts];
      var o, dest := od[d.oi], od[d.di];
      ghost var a := Attempt(s, attempts);
      attempts := attempts + 1;
      var normal := ShortestRouteStats(gNormal, routeNormal(o, dest), ByLength);
      if normal.NoRoute? {
        assert a.None?;
        continue;
      }
      var g := if d.thursday then gFeria else gNormal;
      var usedPath := if d.thursday then routeFeria(o, dest) else routeNormal(o, dest);
      var used := ShortestRouteStats(g, usedPath, ByLength);
      if used.NoRoute? {
        assert a.None?;
        continue;
      }
      var row := RowOf(o, dest, d, Totals(used.dist, used.tsec));
      assert a == Some(row);
      rows := rows + [row];
    }
    out := Rows(rows);
    SimulateBounds(s, [], 0);
  }
}
