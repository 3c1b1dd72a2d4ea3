/** Breadth-first export of the isogeny graph around a seed curve, to a bounded depth and with limits
    that fail instead of truncating. */
module IsogenyExport {
  import opened Bits
  import opened Options

  // A curve model by its invariants, and a map record; equal records are equal JSON keys.
  datatype Curve = Curve(invariants: string)
  datatype Edge = Edge(domain: Curve, codomain: Curve, detail: string)

  // All prime-degree maps out of a curve, or nothing when one of them cannot be written down.
  type Expand = Curve -> Option<seq<Edge>>

  ghost predicate LeavesItsCurve(expand: Expand) {
    forall c :: expand(c).Some? ==> forall e | e in expand(c).value :: e.domain == c
  }

  function Maps(expand: Expand, c: Curve): seq<Edge> {
    match expand(c) case Some(es) => es case None => []
  }

  // ----- what is to be exported

  ghost function Outgoing(expand: Expand, cs: set<Curve>): set<Edge> {
    set c, e | c in cs && e in Maps(expand, c) :: e
  }

  // The curves within k steps of the seed.
  ghost function Ball(expand: Expand, seed: Curve, k: nat): set<Curve> {
    if k == 0 then {seed}
    else
      var inner := Ball(expand, seed, k - 1);
      inner + set e | e in Outgoing(expand, inner) :: e.codomain
  }

  // The maps leaving curves at distance below k.
  ghost function MapsBelow(expand: Expand, seed: Curve, k: nat): set<Edge> {
    if k == 0 then {} else Outgoing(expand, Ball(expand, seed, k - 1))
  }

  // A walk along maps, the partner definition of the ball.
  ghost predicate IsWalk(expand: Expand, path: seq<Edge>, from: Curve, to: Curve)
    decreases |path|
  {
    if path == [] then from == to
    else
      var n := |path| - 1;
      var e := path[n];
      e.codomain == to && exists mid :: IsWalk(expand, path[..n], from, mid) && e in Maps(expand, mid)
  }

  lemma {:induction false} BallHasWalk(expand: Expand, seed: Curve, k: nat, c: Curve) returns (path: seq<Edge>)
    requires c in Ball(expand, seed, k)
    ensures |path| <= k && IsWalk(expand, path, seed, c)
  {
    if k == 0 {
      path := [];
    } else if c in Ball(expand, seed, k - 1) {
      path := BallHasWalk(expand, seed, k - 1, c);
    } else {
      var e :| e in Outgoing(expand, Ball(expand, seed, k - 1)) && e.codomain == c;
      var b :| b in Ball(expand, seed, k - 1) && e in Maps(expand, b);
      var head := BallHasWalk(expand, seed, k - 1, b);
      path := head + [e];
      assert path[..|path| - 1] == head;
    }
  }

  lemma {:induction false} WalkStaysInBall(expand: Expand, seed: Curve, path: seq<Edge>, c: Curve)
    requires IsWalk(expand, path, seed, c)
    ensures c in Ball(expand, seed, |path|)
    decreases |path|
  {
    if path != [] {
      var n := |path| - 1;
      var b :| IsWalk(expand, path[..n], seed, b) && path[n] in Maps(expand, b);
      WalkStaysInBall(expand, seed, path[..n], b);
      assert path[n] in Outgoing(expand, Ball(expand, seed, n));
    }
  }

  // The ball holds exactly the curves that a walk of at most k maps leads to.
  lemma BallIsWalks(expand: Expand, seed: Curve, k: nat, c: Curve)
    ensures c in Ball(expand, seed, k) <==> exists path :: |path| <= k && IsWalk(expand, path, seed, c)
  {
    if c in Ball(expand, seed, k) {
      var path := BallHasWalk(expand, seed, k, c);
    }
    if path :| |path| <= k && IsWalk(expand, path, seed, c) {
      WalkStaysInBall(expand, seed, path, c);
      BallGrows(expand, seed, |path|, k);
    }
  }

  lemma {:induction false} BallGrows(expand: Expand, seed: Curve, j: nat, k: nat)
    requires j <= k
    ensures Ball(expand, seed, j) <= Ball(expand, seed, k)
    decreases k
  {
    if j < k {
      BallGrows(expand, seed, j, k - 1);
    }
  }

  // k is the distance of c from the seed
  ghost predicate AtDistance(expand: Expand, seed: Curve, c: Curve, k: nat) {
    c in Ball(expand, seed, k) && (k > 0 ==> c !in Ball(expand, seed, k - 1))
  }

  lemma DistanceBound(expand: Expand, seed: Curve, c: Curve, d: nat, k: nat)
    requires AtDistance(expand, seed, c, d) && c in Ball(expand, seed, k)
    ensures d <= k
  {
    if d > k {
      BallGrows(expand, seed, k, d - 1);
    }
  }

  // ----- the search

  datatype Outcome = Exported(curves: set<Curve>, edges: set<Edge>) | Rejected

  datatype Entry = Entry(curve: Curve, depth: nat)
  type Queue = seq<Entry>

  ghost predicate Queued(queue: Queue, c: Curve) {
    exists i :: 0 <= i < |queue| && queue[i].curve == c
  }

  ghost predicate QueueOk(queue: Queue, k: nat, dist: map<Curve, nat>) {
    && (forall i :: 0 <= i < |queue| ==>
          queue[i].curve in dist && dist[queue[i].curve] == queue[i].depth && k <= queue[i].depth <= k + 1)
    && (forall i, j :: 0 <= i < j < |queue| ==> queue[i].depth <= queue[j].depth && queue[i].curve != queue[j].curve)
  }

  // `dist` gives every curve found so far its distance from the seed.
  ghost predicate DistOk(expand: Expand, seed: Curve, depth: nat, dist: map<Curve, nat>) {
    forall c | c in dist :: AtDistance(expand, seed, c, dist[c]) && dist[c] <= depth
  }

  // A curve that has left the queue below the depth limit has had all its maps recorded.
  ghost predicate Expanded(expand: Expand, depth: nat, c: Curve, dist: map<Curve, nat>, edges: set<Edge>)
    requires c in dist
  {
    dist[c] < depth ==> expand(c).Some? && forall e | e in expand(c).value :: e in edges && e.codomain in dist
  }

  // Between two steps the queue holds the rest of level k, then what has been found of level k + 1.
  ghost predicate Frontier(expand: Expand, seed: Curve, depth: nat, k: nat, queue: Queue, dist: map<Curve, nat>,
                           edges: set<Edge>, current: Option<Curve>)
  {
    && DistOk(expand, seed, depth, dist) && QueueOk(queue, k, dist)
    && Ball(expand, seed, k) <= dist.Keys
    && edges <= MapsBelow(expand, seed, depth)
    && (forall c | c in dist && !Queued(queue, c) && current != Some(c) :: Expanded(expand, depth, c, dist, edges))
  }

  lemma QueuedFirst(queue: Queue)
    requires queue != []
    ensures forall c :: Queued(queue, c) <==> c == queue[0].curve || Queued(queue[1..], c)
  {
    forall c
      ensures Queued(queue, c) <==> c == queue[0].curve || Queued(queue[1..], c)
    {
      if i :| 0 <= i < |queue| && queue[i].curve == c {
        assert i == 0 || queue[1..][i - 1].curve == c;
      }
      if i :| 0 <= i < |queue[1..]| && queue[1..][i].curve == c {
        assert queue[i + 1].curve == c;
      }
    }
  }

  lemma QueuedLast(queue: Queue, q: Entry)
    ensures forall c :: Queued(queue + [q], c) <==> Queued(queue, c) || c == q.curve
  {
    forall c
      ensures Queued(queue + [q], c) <==> Queued(queue, c) || c == q.curve
    {
      if i :| 0 <= i < |queue| && queue[i].curve == c {
        assert (queue + [q])[i].curve == c;
      }
      assert (queue + [q])[|queue|] == q;
    }
  }

  lemma BallNext(expand: Expand, seed: Curve, k: nat, d: nat)
    requires d == k + 1
    ensures forall c | c in Ball(expand, seed, d) && c !in Ball(expand, seed, k) ::
              exists b :: b in Ball(expand, seed, k) && LeadsTo(expand, b, c)
  {
    forall c | c in Ball(expand, seed, d) && c !in Ball(expand, seed, k)
      ensures exists b :: b in Ball(expand, seed, k) && LeadsTo(expand, b, c)
    {
      var e :| e in Outgoing(expand, Ball(expand, seed, k)) && e.codomain == c;
      OutgoingFrom(expand, Ball(expand, seed, k), e);
    }
  }

  lemma OutgoingFrom(expand: Expand, ball: set<Curve>, e: Edge)
    requires e in Outgoing(expand, ball)
    ensures exists b :: b in ball && LeadsTo(expand, b, e.codomain)
  {
    var b :| b in ball && e in Maps(expand, b);
    assert LeadsTo(expand, b, e.codomain);
  }

  ghost predicate LeadsTo(expand: Expand, b: Curve, c: Curve) {
    exists e :: e in Maps(expand, b) && e.codomain == c
  }

  // Once the first entry is of level d == k + 1, that level is completely known.
  lemma NextLevelKnown(expand: Expand, seed: Curve, depth: nat, k: nat, queue: Queue, dist: map<Curve, nat>,
                       edges: set<Edge>, d: nat)
    requires Frontier(expand, seed, depth, k, queue, dist, edges, None)
    requires queue != [] && queue[0].depth == d == k + 1
    ensures Ball(expand, seed, d) <= dist.Keys
  {
    BallNext(expand, seed, k, d);
    forall c | c in Ball(expand, seed, d) && c !in Ball(expand, seed, k)
      ensures c in dist
    {
      var b :| b in Ball(expand, seed, k) && LeadsTo(expand, b, c);
      DistanceBound(expand, seed, b, dist[b], k);
      assert !Queued(queue, b);
      assert Expanded(expand, depth, b, dist, edges);
    }
  }

  lemma NextLevel(expand: Expand, seed: Curve, depth: nat, k: nat, queue: Queue, dist: map<Curve, nat>,
                  edges: set<Edge>, d: nat)
    requires Frontier(expand, seed, depth, k, queue, dist, edges, None)
    requires queue != [] && queue[0].depth == d != k
    ensures Frontier(expand, seed, depth, d, queue, dist, edges, None)
  {
    NextLevelKnown(expand, seed, depth, k, queue, dist, edges, d);
  }

  // The first curve is taken off the queue; its maps are still to be recorded.
  lemma PopKeeps(expand: Expand, seed: Curve, depth: nat, k: nat, queue: Queue, dist: map<Curve, nat>, edges: set<Edge>)
    requires Frontier(expand, seed, depth, k, queue, dist, edges, None) && queue != []
    ensures Frontier(expand, seed, depth, k, queue[1..], dist, edges, Some(queue[0].curve))
    ensures !Queued(queue[1..], queue[0].curve)
  {
    QueuedFirst(queue);
  }

  // An entry has been taken off the queue.
  ghost predicate Taken(expand: Expand, seed: Curve, depth: nat, first: Entry, rest: Queue, dist: map<Curve, nat>,
                        edges: set<Edge>)
  {
    && first.curve in dist && dist[first.curve] == first.depth <= depth
    && first.curve in Ball(expand, seed, first.depth)
    && Frontier(expand, seed, depth, first.depth, rest, dist, edges, Some(first.curve))
  }

  // The depth of the first curve is the level that the search is at.
  lemma TakeFirst(expand: Expand, seed: Curve, depth: nat, k: nat, queue: Queue, dist: map<Curve, nat>,
                  edges: set<Edge>)
    requires Frontier(expand, seed, depth, k, queue, dist, edges, None) && queue != []
    ensures Taken(expand, seed, depth, queue[0], queue[1..], dist, edges)
  {
    LevelOfFirst(expand, seed, depth, k, queue, dist, edges, queue[0].depth);
    PopKeeps(expand, seed, depth, queue[0].depth, queue, dist, edges);
    assert AtDistance(expand, seed, queue[0].curve, queue[0].depth);
  }

  lemma LevelOfFirst(expand: Expand, seed: Curve, depth: nat, k: nat, queue: Queue, dist: map<Curve, nat>,
                     edges: set<Edge>,
                     d: nat)
    requires Frontier(expand, seed, depth, k, queue, dist, edges, None) && queue != [] && queue[0].depth == d
    ensures Frontier(expand, seed, depth, d, queue, dist, edges, None)
  {
    if d != k {
      NextLevel(expand, seed, depth, k, queue, dist, edges, d);
    }
  }

  lemma RecordReaches(expand: Expand, seed: Curve, depth: nat, k: nat, current: Curve, e: Edge)
    requires k < depth && current in Ball(expand, seed, k) && e in Maps(expand, current)
    ensures e in MapsBelow(expand, seed, depth)
    ensures e.codomain in Ball(expand, seed, k + 1) && e.codomain in Ball(expand, seed, depth)
  {
    BallGrows(expand, seed, k, depth - 1);
    InOutgoing(expand, Ball(expand, seed, depth - 1), current, e);
    InOutgoing(expand, Ball(expand, seed, k), current, e);
    BallGrows(expand, seed, k + 1, depth);
  }

  lemma InOutgoing(expand: Expand, ball: set<Curve>, current: Curve, e: Edge)
    requires current in ball && e in Maps(expand, current)
    ensures e in Outgoing(expand, ball)
  {
  }

  // A map of the current curve is recorded,
  lemma RecordKeeps(expand: Expand, seed: Curve, depth: nat, k: nat, queue: Queue, dist: map<Curve, nat>,
                    edges: set<Edge>,
                    current: Curve, e: Edge)
    requires Frontier(expand, seed, depth, k, queue, dist, edges, Some(current)) && e in MapsBelow(expand, seed, depth)
    ensures Frontier(expand, seed, depth, k, queue, dist, edges + {e}, Some(current))
  {
  }

  // and its target is queued if it is new.
  lemma PushKeeps(expand: Expand, seed: Curve, depth: nat, k: nat, queue: Queue, dist: map<Curve, nat>,
                  edges: set<Edge>,
                  current: Curve, t: Curve)
    requires Frontier(expand, seed, depth, k, queue, dist, edges, Some(current)) && k < depth
    requires t !in dist && t in Ball(expand, seed, k + 1)
    ensures Frontier(expand, seed, depth, k, queue + [Entry(t, k + 1)], dist[t := k + 1], edges, Some(current))
  {
    QueuedLast(queue, Entry(t, k + 1));
    PushQueue(queue, k, dist, t);
    PushDist(expand, seed, depth, k, dist, t);
    PushExpanded(expand, depth, dist, edges, t, k + 1);
  }

  lemma PushDist(expand: Expand, seed: Curve, depth: nat, k: nat, dist: map<Curve, nat>, t: Curve)
    requires DistOk(expand, seed, depth, dist) && Ball(expand, seed, k) <= dist.Keys && k < depth
    requires t !in dist && t in Ball(expand, seed, k + 1)
    ensures DistOk(expand, seed, depth, dist[t := k + 1])
  {
    assert t !in Ball(expand, seed, k);
    assert AtDistance(expand, seed, t, k + 1);
    forall c | c in dist
      ensures AtDistance(expand, seed, c, dist[t := k + 1][c])
    {
      assert AtDistance(expand, seed, c, dist[c]);
    }
  }

  lemma PushExpanded(expand: Expand, depth: nat, dist: map<Curve, nat>, edges: set<Edge>, t: Curve, d: nat)
    requires t !in dist
    ensures forall c | c in dist && Expanded(expand, depth, c, dist, edges) :: Expanded(expand, depth, c, dist[t := d], edges)
  {
  }

  lemma PushQueue(queue: Queue, k: nat, dist: map<Curve, nat>, t: Curve)
    requires QueueOk(queue, k, dist) && t !in dist
    ensures QueueOk(queue + [Entry(t, k + 1)], k, dist[t := k + 1])
  {
  }

  // All maps of the current curve are recorded.
  lemma CurrentDone(expand: Expand, seed: Curve, depth: nat, k: nat, queue: Queue, dist: map<Curve, nat>,
                    edges: set<Edge>,
                    current: Curve, records: seq<Edge>)
    requires Frontier(expand, seed, depth, k, queue, dist, edges, Some(current))
    requires current in dist && expand(current) == Some(records) && Recorded(records[..|records|], dist, edges)
    ensures Frontier(expand, seed, depth, k, queue, dist, edges, None)
  {
    assert records[..|records|] == records;
    assert Expanded(expand, depth, current, dist, edges);
  }

  // At the depth limit nothing is to be recorded.
  lemma SkipKeeps(expand: Expand, seed: Curve, depth: nat, k: nat, queue: Queue, dist: map<Curve, nat>,
                  edges: set<Edge>,
                  current: Curve)
    requires Frontier(expand, seed, depth, k, queue, dist, edges, Some(current))
    requires current in dist && dist[current] >= depth
    ensures Frontier(expand, seed, depth, k, queue, dist, edges, None)
  {
    assert Expanded(expand, depth, current, dist, edges);
  }

  lemma {:induction false} AllFound(expand: Expand, seed: Curve, depth: nat, k: nat, dist: map<Curve, nat>,
                                    edges: set<Edge>, j: nat)
    requires Frontier(expand, seed, depth, k, [], dist, edges, None) && j <= depth && seed in dist
    ensures Ball(expand, seed, j) <= dist.Keys && MapsBelow(expand, seed, j) <= edges
    ensures j > 0 ==> forall c | c in Ball(expand, seed, j - 1) :: expand(c).Some?
  {
    if j > 0 {
      AllFound(expand, seed, depth, k, dist, edges, j - 1);
      forall b | b in Ball(expand, seed, j - 1)
        ensures dist[b] < depth && Expanded(expand, depth, b, dist, edges)
      {
        DistanceBound(expand, seed, b, dist[b], j - 1);
      }
    }
  }

  // The export is possible: nothing within reach is unwritable, and the limits suffice.
  ghost predicate Exportable(expand: Expand, seed: Curve, depth: nat, maxCurves: nat, maxEdges: nat) {
    && (depth > 0 ==> forall c | c in Ball(expand, seed, depth - 1) :: expand(c).Some?)
    && |Ball(expand, seed, depth)| <= maxCurves
    && |MapsBelow(expand, seed, depth)| <= maxEdges
  }

  lemma Unwritable(expand: Expand, seed: Curve, depth: nat, maxCurves: nat, maxEdges: nat, c: Curve, d: nat)
    requires d < depth && c in Ball(expand, seed, d) && expand(c) == None
    ensures !Exportable(expand, seed, depth, maxCurves, maxEdges)
  {
    BallGrows(expand, seed, d, depth - 1);
  }

  lemma SubsetSize<T>(a: set<T>, b: set<T>)
    requires a <= b
    ensures |a| <= |b|
    decreases |a|
  {
    if a != {} {
      var x :| x in a;
      SubsetSize(a - {x}, b - {x});
    }
  }

  // ----- the arguments

  datatype Fraction = Fraction(num: int, den: nat)

  // A coefficient as typed: its length, and the fraction that it reads as.
  datatype Text = Text(length: nat, value: Option<Fraction>)

  datatype Arguments = Arguments(a2: Text, a4: Text, a6: Text, depth: int, degrees: set<int>, maxCurves: int,
                                 maxEdges: int)

  // The algebra system: the curve of three coefficients, unless they are singular, the prime-degree maps
  // of these degrees, and the bytes of the written file.
  datatype Algebra = Algebra(
    curve: (Fraction, Fraction, Fraction) -> Option<Curve>,
    expand: set<int> -> Expand,
    size: (set<Curve>, set<Edge>) -> nat)

  predicate LimitsOk(depth: int, maxCurves: int, maxEdges: int) {
    0 <= depth <= 4 && 1 <= maxCurves <= 256 && 1 <= maxEdges <= 10000
  }

  predicate DegreesOk(degrees: set<int>) {
    forall d | d in degrees :: 2 <= d <= 31 && forall k | 2 <= k < d :: d % k != 0
  }

  function BitLength(n: nat): nat {
    if n == 0 then 0 else 1 + BitLength(n / 2)
  }

  function Rational(x: Text): Option<Fraction> {
    if x.length > 310 || x.value == None then None
    else
      var q := x.value.value;
      if BitLength(if q.num < 0 then -q.num else q.num) > 1024 || BitLength(q.den) > 1024 then None else Some(q)
  }

  function Seed(algebra: Algebra, a: Arguments): Option<Curve> {
    match (Rational(a.a2), Rational(a.a4), Rational(a.a6))
    case (Some(x), Some(y), Some(z)) => algebra.curve(x, y, z)
    case _ => None
  }

  const MAX_OUTPUT: nat := 2_097_152

  // The arguments are in order, and what they ask for fits into every limit.
  ghost predicate Acceptable(algebra: Algebra, a: Arguments) {
    && 0 <= a.depth <= 4 && 1 <= a.maxCurves <= 256 && 1 <= a.maxEdges <= 10000
    && DegreesOk(a.degrees) && Seed(algebra, a).Some?
    && var expand, seed := algebra.expand(a.degrees), Seed(algebra, a).value;
       && Exportable(expand, seed, a.depth, a.maxCurves, a.maxEdges)
       && algebra.size(Ball(expand, seed, a.depth), MapsBelow(expand, seed, a.depth)) <= 2_097_152
  }

  // An empty queue: everything within reach has been found, and no more.
  lemma Finished(expand: Expand, seed: Curve, depth: nat, k: nat, dist: map<Curve, nat>, edges: set<Edge>)
    requires Frontier(expand, seed, depth, k, [], dist, edges, None) && seed in dist
    ensures dist.Keys == Ball(expand, seed, depth) && edges == MapsBelow(expand, seed, depth)
    ensures depth > 0 ==> forall c | c in Ball(expand, seed, depth - 1) :: expand(c).Some?
  {
    AllFound(expand, seed, depth, k, dist, edges, depth);
    SeenInBall(expand, seed, depth, dist);
  }

  lemma FoundInBall(expand: Expand, seed: Curve, depth: nat, k: nat, queue: Queue, dist: map<Curve, nat>,
                    edges: set<Edge>)
    requires Frontier(expand, seed, depth, k, queue, dist, edges, None)
    ensures |dist.Keys| <= |Ball(expand, seed, depth)|
  {
    SeenInBall(expand, seed, depth, dist);
  }

  lemma SeenInBall(expand: Expand, seed: Curve, depth: nat, dist: map<Curve, nat>)
    requires DistOk(expand, seed, depth, dist)
    ensures dist.Keys <= Ball(expand, seed, depth) && |dist.Keys| <= |Ball(expand, seed, depth)|
  {
    forall c | c in dist
      ensures c in Ball(expand, seed, depth)
    {
      BallGrows(expand, seed, dist[c], depth);
    }
    SubsetSize(dist.Keys, Ball(expand, seed, depth));
  }

  // One map of the current curve, with both limits checked.
  method RecordMap(expand: Expand, seed: Curve, depth: nat, maxCurves: nat, maxEdges: nat, curve: Curve,
                   d: nat, e: Edge,
                   queue0: Queue, seen0: set<Curve>, edges0: set<Edge>, ghost dist0: map<Curve, nat>)
    returns (ok: bool, queue: Queue, seen: set<Curve>, edges: set<Edge>, ghost dist: map<Curve, nat>)
    requires Frontier(expand, seed, depth, d, queue0, dist0, edges0, Some(curve)) && seen0 == dist0.Keys
    requires curve in dist0 && dist0[curve] == d < depth && e in Maps(expand, curve)
    requires |seen0| <= maxCurves && |edges0| <= maxEdges
    ensures !ok ==> !Exportable(expand, seed, depth, maxCurves, maxEdges)
    ensures ok ==> Frontier(expand, seed, depth, d, queue, dist, edges, Some(curve)) && seen == dist.Keys
    ensures ok ==> edges == edges0 + {e} && e.codomain in dist && curve in dist && dist[curve] == d
    ensures ok ==> |seen| <= maxCurves && |edges| <= maxEdges
    ensures ok ==> dist0.Keys <= dist.Keys && (|seen0| == |seen| ==> queue == queue0) && |seen0| <= |seen|
  {
    queue, seen, edges, dist := queue0, seen0, edges0, dist0;
    var target := e.codomain;
    RecordReaches(expand, seed, depth, d, curve, e);
    RecordKeeps(expand, seed, depth, d, queue, dist, edges, curve, e);
    edges := edges + {e};
    if |edges| > maxEdges {
      SubsetSize(edges, MapsBelow(expand, seed, depth));
      return false, queue, seen, edges, dist;
    }
    if target !in seen {
      if |seen| >= maxCurves {
        TooManyCurves(expand, seed, depth, dist, target);
        return false, queue, seen, edges, dist;
      }
      PushKeeps(expand, seed, depth, d, queue, dist, edges, curve, target);
      seen := seen + {target};
      dist := dist[target := d + 1];
      queue := queue + [Entry(target, d + 1)];
    }
    ok := true;
  }

  ghost predicate Recorded(records: seq<Edge>, dist: map<Curve, nat>, edges: set<Edge>) {
    forall e | e in records :: e in edges && e.codomain in dist
  }

  lemma RecordedOne(records: seq<Edge>, i: nat, dist: map<Curve, nat>, edges: set<Edge>, dist': map<Curve,
                    nat>, edges': set<Edge>)
    requires i < |records| && Recorded(records[..i], dist, edges)
    requires dist.Keys <= dist'.Keys && edges' == edges + {records[i]} && records[i].codomain in dist'
    ensures Recorded(records[..i + 1], dist', edges')
  {
  }

  // The maps of one curve, in order.
  method RecordMaps(expand: Expand, seed: Curve, depth: nat, maxCurves: nat, maxEdges: nat, curve: Curve, d: nat,
                    queue0: Queue, seen0: set<Curve>, edges0: set<Edge>, ghost dist0: map<Curve, nat>)
    returns (ok: bool, queue: Queue, seen: set<Curve>, edges: set<Edge>, ghost dist: map<Curve, nat>)
    requires Frontier(expand, seed, depth, d, queue0, dist0, edges0, Some(curve)) && seen0 == dist0.Keys
    requires curve in dist0 && dist0[curve] == d < depth && expand(curve).Some?
    requires |seen0| <= maxCurves && |edges0| <= maxEdges
    ensures !ok ==> !Exportable(expand, seed, depth, maxCurves, maxEdges)
    ensures ok ==> Frontier(expand, seed, depth, d, queue, dist, edges, None) && seen == dist.Keys
    ensures ok ==> |seen| <= maxCurves && |edges| <= maxEdges
    ensures ok ==> seen0 <= seen && |seen0| <= |seen| && (|seen0| == |seen| ==> queue == queue0)
  {
    ok, queue, seen, edges, dist := true, queue0, seen0, edges0, dist0;
    var records := expand(curve).value;
    var i := 0;
    while i < |records|
      invariant 0 <= i <= |records|
      invariant Frontier(expand, seed, depth, d, queue, dist, edges, Some(curve)) && seen == dist.Keys
      invariant curve in dist && dist[curve] == d && Recorded(records[..i], dist, edges)
      invariant |seen| <= maxCurves && |edges| <= maxEdges
      invariant seen0 <= seen && |seen0| <= |seen| && (|seen0| == |seen| ==> queue == queue0)
    {
      ghost var dist1, edges1 := dist, edges;
      ok, queue, seen, edges, dist :=
        RecordMap(expand, seed, depth, maxCurves, maxEdges, curve, d, records[i], queue, seen, edges, dist);
      if !ok {
        return;
      }
      RecordedOne(records, i, dist1, edges1, dist, edges);
      i := i + 1;
    }
    CurrentDone(expand, seed, depth, d, queue, dist, edges, curve, records);
  }

  // The search itself.
  method Search(expand: Expand, seed: Curve, depth: nat, maxCurves: nat, maxEdges: nat)
    returns (ok: bool, seen: set<Curve>, edges: set<Edge>)
    requires maxCurves >= 1
    ensures ok <==> Exportable(expand, seed, depth, maxCurves, maxEdges)
    ensures ok ==> seen == Ball(expand, seed, depth) && edges == MapsBelow(expand, seed, depth)
  {
    var queue: Queue := [Entry(seed, 0)];
    ok, seen, edges := true, {seed}, {};
    ghost var k: nat := 0;
    ghost var dist: map<Curve, nat> := map[seed := 0];
    Start(expand, seed, depth);
    FoundInBall(expand, seed, depth, k, queue, dist, edges);
    while queue != []
      invariant Frontier(expand, seed, depth, k, queue, dist, edges, None) && seen == dist.Keys && seed in seen
      invariant |seen| <= maxCurves && |edges| <= maxEdges
      invariant |seen| <= |Ball(expand, seed, depth)|
      decreases |Ball(expand, seed, depth)| - |seen|, |queue|
    {
      TakeFirst(expand, seed, depth, k, queue, dist, edges);
      k := queue[0].depth;
      ok, queue, seen, edges, dist :=
        Visit(expand, seed, depth, maxCurves, maxEdges, queue[0].curve, queue[0].depth, queue[1..], seen, edges, dist);
      if !ok {
        return;
      }
      FoundInBall(expand, seed, depth, k, queue, dist, edges);
    }
    Finished(expand, seed, depth, k, dist, edges);
  }

  // One curve that has been taken off the queue.
  method Visit(expand: Expand, seed: Curve, depth: nat, maxCurves: nat, maxEdges: nat, curve: Curve, d: nat,
               queue0: Queue, seen0: set<Curve>, edges0: set<Edge>, ghost dist0: map<Curve, nat>)
    returns (ok: bool, queue: Queue, seen: set<Curve>, edges: set<Edge>, ghost dist: map<Curve, nat>)
    requires Taken(expand, seed, depth, Entry(curve, d), queue0, dist0, edges0) && seen0 == dist0.Keys
    requires |seen0| <= maxCurves && |edges0| <= maxEdges
    ensures !ok ==> !Exportable(expand, seed, depth, maxCurves, maxEdges)
    ensures ok ==> Frontier(expand, seed, depth, d, queue, dist, edges, None) && seen == dist.Keys
    ensures ok ==> |seen| <= maxCurves && |edges| <= maxEdges
    ensures ok ==> seen0 <= seen && |seen0| <= |seen| && (|seen0| == |seen| ==> queue == queue0)
  {
    ok, queue, seen, edges, dist := true, queue0, seen0, edges0, dist0;
    if d >= depth {
      SkipKeeps(expand, seed, depth, d, queue, dist, edges, curve);
      return;
    }
    if expand(curve) == None {
      Unwritable(expand, seed, depth, maxCurves, maxEdges, curve, d);
      ok := false;
      return;
    }
    ok, queue, seen, edges, dist :=
      RecordMaps(expand, seed, depth, maxCurves, maxEdges, curve, d, queue, seen, edges, dist);
  }

  // The export: all of the ball and all of its maps, or nothing.
  method Export(algebra: Algebra, a: Arguments) returns (r: Outcome)
    ensures r.Exported? <==> Acceptable(algebra, a)
    ensures r.Exported? ==> 0 <= a.depth <= 4 && |r.curves| <= a.maxCurves <= 256 && |r.edges| <= a.maxEdges <= 10000
    ensures r.Exported? ==> algebra.size(r.curves, r.edges) <= 2_097_152
    ensures r.Exported? ==>
      var expand, seed := algebra.expand(a.degrees), Seed(algebra, a).value;
      && r.curves == Ball(expand, seed, a.depth) && r.edges == MapsBelow(expand, seed, a.depth)
      && (LeavesItsCurve(expand) ==> forall e | e in r.edges :: e.domain in r.curves && e.codomain in r.curves)
  {
    if !LimitsOk(a.depth, a.maxCurves, a.maxEdges) || !DegreesOk(a.degrees) {
      return Rejected;
    }
    var seed := Seed(algebra, a);
    if seed == None {
      return Rejected;
    }
    var expand := algebra.expand(a.degrees);
    var ok, seen, edges := Search(expand, seed.value, a.depth, a.maxCurves, a.maxEdges);
    if !ok || algebra.size(seen, edges) > MAX_OUTPUT {
      return Rejected;
    }
    if LeavesItsCurve(expand) {
      EndpointsFound(expand, seed.value, a.depth);
    }
    r := Exported(seen, edges);
  }

  lemma TooManyCurves(expand: Expand, seed: Curve, depth: nat, dist: map<Curve, nat>, target: Curve)
    requires DistOk(expand, seed, depth, dist) && target in Ball(expand, seed, depth) && target !in dist
    ensures |Ball(expand, seed, depth)| > |dist.Keys|
  {
    SeenInBall(expand, seed, depth, dist);
    SubsetSize(dist.Keys + {target}, Ball(expand, seed, depth));
  }

  lemma EndpointsFound(expand: Expand, seed: Curve, depth: nat)
    requires LeavesItsCurve(expand)
    ensures forall e | e in MapsBelow(expand, seed, depth) ::
              e.domain in Ball(expand, seed, depth) && e.codomain in Ball(expand, seed, depth)
  {
  }

  lemma Start(expand: Expand, seed: Curve, depth: nat)
    ensures Frontier(expand, seed, depth, 0, [Entry(seed, 0)], map[seed := 0], {}, None)
  {
    assert [Entry(seed, 0)][0].curve == seed;
  }

  // ----- the arguments, written out

  // The seed is the curve of a2, a4 and a6 in this order, each of at most 310 characters and 1024 bits.
  lemma SeedWritten(algebra: Algebra, a: Arguments, c: Curve)
    ensures Seed(algebra, a) == Some(c) <==>
              && Fraction310(a.a2) && Fraction310(a.a4) && Fraction310(a.a6)
              && algebra.curve(a.a2.value.value, a.a4.value.value, a.a6.value.value) == Some(c)
  {
    forall n: nat
      ensures BitLength(n) <= 1024 <==> n < Pow2(1024)
    {
      BitLengthBounds(n, 1024);
    }
  }

  ghost predicate Fraction310(x: Text) {
    && x.length <= 310 && x.value.Some?
    && -(Pow2(1024) as int) < x.value.value.num < Pow2(1024) && x.value.value.den < Pow2(1024)
  }

  lemma {:induction false} BitLengthBounds(n: nat, k: nat)
    ensures BitLength(n) <= k <==> n < Pow2(k)
  {
    if n != 0 && k != 0 {
      BitLengthBounds(n / 2, k - 1);
    }
  }

  // The degrees are primes up to 31.
  lemma DegreesWritten(degrees: set<int>)
    ensures DegreesOk(degrees) <==> degrees <= {2, 3, 5, 7, 11, 13, 17, 19, 23, 29, 31}
  {
    forall d
      ensures DegreesOk({d}) <==> d in {2, 3, 5, 7, 11, 13, 17, 19, 23, 29, 31}
    {
      PrimeDegree(d);
    }
    assert DegreesOk(degrees) <==> forall d | d in degrees :: DegreesOk({d});
  }

  lemma PrimeDegree(d: int)
    ensures DegreesOk({d}) <==> d in {2, 3, 5, 7, 11, 13, 17, 19, 23, 29, 31}
  {
    if d in {2, 3, 5, 7, 11, 13, 17, 19, 23, 29, 31} {
      forall k | 2 <= k < d
        ensures d % k != 0
      {
        NoDivisor(d, k);
      }
    } else if 2 <= d <= 31 {
      var k := if d % 2 == 0 then 2 else if d % 3 == 0 then 3 else 5;
      assert d in {d} && 2 <= k < d && d % k == 0;
    }
  }

  lemma NoDivisor(d: int, k: int)
    requires d in {2, 3, 5, 7, 11, 13, 17, 19, 23, 29, 31} && 2 <= k < d
    ensures d % k != 0
  {
    if d % k == 0 {
      var q := d / k;
      Factors(d, k, q);
    }
  }

  // One of two factors of a number below 32 is small.
  lemma Factors(d: int, k: int, q: int)
    requires 2 <= k < d <= 31 && d == k * q
    ensures 2 <= q && (k <= 5 || q <= 5)
  {
    if k >= 6 {
      assert k * q >= 6 * q;
    }
  }
}
