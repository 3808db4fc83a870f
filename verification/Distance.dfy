/** Distances of basic blocks from a target, by label correction over predecessor and
    dominator links, and the cached distances that pick the closest simulated path. */
module Distance {
  import opened Basics

  /** The distance of a block that has not been reached. */
  const INITIAL_DISTANCE: nat := 0xFFFFFFF

  /** Blocks are known by their id; a step leads from a block to a predecessor or to its dominator. */
  datatype Graph = Graph(predecessors: seq<set<nat>>, idom: seq<Option<nat>>, weight: seq<nat>) {
    predicate Ok() {
      && |predecessors| == |idom| == |weight|
      && (forall u, v | 0 <= u < |weight| && v in predecessors[u] :: v < |weight|)
      && (forall u | 0 <= u < |weight| && idom[u].Some? :: idom[u].value < |weight|)
      && Sum(weight) < INITIAL_DISTANCE
    }

    predicate Edge(u: nat, v: nat)
      requires Ok() && u < |weight|
    {
      v in predecessors[u] || idom[u] == Some(v)
    }

    /** A walk from the target towards the entries. */
    ghost predicate Walk(w: seq<nat>, from: nat, to: nat)
      requires Ok()
    {
      && w != [] && w[0] == from && w[|w| - 1] == to
      && (forall k | 0 <= k < |w| :: w[k] < |weight|)
      && (forall a, b | 0 <= a && b == a + 1 < |w| :: Edge(w[a], w[b]))
    }

    /** The weights of all blocks the walk leaves. */
    function Cost(w: seq<nat>): nat
      requires forall k | 0 <= k < |w| :: w[k] < |weight|
    {
      if |w| <= 1 then 0 else Cost(w[..|w| - 1]) + weight[w[|w| - 2]]
    }
  }

  function Sum(s: seq<nat>): nat {
    if s == [] then 0 else Sum(s[..|s| - 1]) + s[|s| - 1]
  }

  lemma {:induction false} SumUpdate(s: seq<nat>, i: nat, x: nat)
    requires i < |s|
    ensures Sum(s[i := x]) == Sum(s) - s[i] + x
  {
    var n := |s| - 1;
    if i < n {
      SumUpdate(s[..n], i, x);
      assert s[i := x][..n] == s[..n][i := x];
    } else {
      assert s[i := x][..n] == s[..n];
    }
  }

  /** `d` is the least cost of a walk from t to b, or the initial value when there is none. */
  ghost predicate IsDistance(g: Graph, t: nat, b: nat, d: nat)
    requires g.Ok()
  {
    if d < INITIAL_DISTANCE then
      && (exists w :: g.Walk(w, t, b) && g.Cost(w) == d)
      && (forall w | g.Walk(w, t, b) :: d <= g.Cost(w))
    else
      d == INITIAL_DISTANCE && forall w :: !g.Walk(w, t, b)
  }

  /** A walk from t without repetition along which every block's label is at most the cost up to it. */
  ghost predicate Trail(g: Graph, t: nat, dist: seq<nat>, w: seq<nat>)
    requires g.Ok() && |dist| == |g.weight|
    ensures Trail(g, t, dist, w) ==> w != [] && w[|w| - 1] < |dist| && forall k | 0 <= k < |w| :: w[k] < |dist|
  {
    if |w| <= 1 then w == [t] && t < |dist| && dist[t] == 0
    else
      var front, u, v := w[..|w| - 1], w[|w| - 2], w[|w| - 1];
      Trail(g, t, dist, front) && v < |dist| && g.Edge(u, v) && v !in front && dist[v] <= g.Cost(w)
  }

  /** A block's label: the cost of a trail that ends there. */
  ghost predicate LabelledAt(g: Graph, t: nat, dist: seq<nat>, w: seq<nat>, v: nat)
    requires g.Ok() && |dist| == |g.weight| && v < |dist|
  {
    Trail(g, t, dist, w) && w[|w| - 1] == v && g.Cost(w) == dist[v]
  }

  ghost predicate Labelled(g: Graph, t: nat, dist: seq<nat>, trail: seq<seq<nat>>)
    requires g.Ok()
  {
    && |dist| == |trail| == |g.weight| && t < |dist| && dist[t] == 0
    && (forall v | 0 <= v < |dist| :: dist[v] <= INITIAL_DISTANCE)
    && (forall v | 0 <= v < |dist| && dist[v] < INITIAL_DISTANCE :: LabelledAt(g, t, dist, trail[v], v))
  }

  lemma {:induction false} TrailIsWalk(g: Graph, t: nat, dist: seq<nat>, w: seq<nat>)
    requires g.Ok() && |dist| == |g.weight| && Trail(g, t, dist, w)
    ensures g.Walk(w, t, w[|w| - 1])
  {
    if |w| > 1 {
      TrailIsWalk(g, t, dist, w[..|w| - 1]);
    }
  }

  /** A trail, leaving its last block too, costs no more than all weights together. */
  lemma {:induction false} TrailBound(g: Graph, t: nat, dist: seq<nat>, w: seq<nat>, weight: seq<nat>)
    requires g.Ok() && |dist| == |g.weight| == |weight| && Trail(g, t, dist, w)
    requires forall x | x in w :: weight[x] == g.weight[x]
    ensures g.Cost(w) + g.weight[w[|w| - 1]] <= Sum(weight)
  {
    var last, front := w[|w| - 1], w[..|w| - 1];
    assert last in w;
    SumUpdate(weight, last, 0);
    if front != [] {
      assert forall x | x in front :: x in w && x != last;
      TrailBound(g, t, dist, front, weight[last := 0]);
    }
  }

  /** Along a trail no label exceeds the cost of the whole trail. */
  lemma {:induction false} TrailLabels(g: Graph, t: nat, dist: seq<nat>, w: seq<nat>)
    requires g.Ok() && |dist| == |g.weight| && Trail(g, t, dist, w)
    ensures forall x | x in w :: dist[x] <= g.Cost(w)
  {
    if |w| > 1 {
      TrailLabels(g, t, dist, w[..|w| - 1]);
      assert forall x | x in w :: x in w[..|w| - 1] || x == w[|w| - 1];
    }
  }

  /** A trail stays one when labels drop. */
  lemma {:induction false} TrailSurvives(g: Graph, t: nat, dist: seq<nat>, dist': seq<nat>, w: seq<nat>)
    requires g.Ok() && |dist| == |dist'| == |g.weight| && Trail(g, t, dist, w)
    requires forall x | 0 <= x < |dist| :: dist'[x] <= dist[x]
    ensures Trail(g, t, dist', w)
  {
    if |w| > 1 {
      TrailSurvives(g, t, dist, dist', w[..|w| - 1]);
    }
  }

  /** A finite label leaves room for one more weight, so nothing wraps around. */
  lemma LabelBound(g: Graph, t: nat, dist: seq<nat>, trail: seq<seq<nat>>, u: nat)
    requires g.Ok() && Labelled(g, t, dist, trail) && u < |dist| && dist[u] < INITIAL_DISTANCE
    ensures (dist[u] + g.weight[u]) % UINT_RANGE == dist[u] + g.weight[u] < INITIAL_DISTANCE
  {
    assert LabelledAt(g, t, dist, trail[u], u);
    TrailBound(g, t, dist, trail[u], g.weight);
  }

  /** The trail of u, one step longer, labels v. */
  lemma RelaxedLabel(g: Graph, t: nat, dist: seq<nat>, w: seq<nat>, u: nat, v: nat)
    requires g.Ok() && |dist| == |g.weight| && u < |dist| && v < |dist|
    requires LabelledAt(g, t, dist, w, u) && g.Edge(u, v) && dist[u] + g.weight[u] < dist[v]
    ensures LabelledAt(g, t, dist[v := dist[u] + g.weight[u]], w + [v], v)
  {
    TrailLabels(g, t, dist, w);
    TrailSurvives(g, t, dist, dist[v := dist[u] + g.weight[u]], w);
    assert (w + [v])[..|w|] == w;
  }

  /** Lowering the label of v through u keeps the labelling. */
  lemma Relax(g: Graph, t: nat, dist: seq<nat>, trail: seq<seq<nat>>, u: nat, v: nat)
    requires g.Ok() && Labelled(g, t, dist, trail)
    requires u < |dist| && v < |dist| && g.Edge(u, v) && dist[u] + g.weight[u] < dist[v]
    ensures Labelled(g, t, dist[v := dist[u] + g.weight[u]], trail[v := trail[u] + [v]])
  {
    var dist', trail' := dist[v := dist[u] + g.weight[u]], trail[v := trail[u] + [v]];
    forall x | 0 <= x < |dist| && dist'[x] < INITIAL_DISTANCE ensures LabelledAt(g, t, dist', trail'[x], x) {
      if x == v {
        assert LabelledAt(g, t, dist, trail[u], u);
        RelaxedLabel(g, t, dist, trail[u], u, v);
      } else {
        assert LabelledAt(g, t, dist, trail[x], x);
        TrailSurvives(g, t, dist, dist', trail[x]);
      }
    }
  }

  /** Every block outside `waiting` has passed its label on. */
  ghost predicate Relaxed(g: Graph, dist: seq<nat>, waiting: set<nat>)
    requires g.Ok() && |dist| == |g.weight|
  {
    forall u, v | 0 <= u < |dist| && u !in waiting && dist[u] < INITIAL_DISTANCE && 0 <= v < |dist| && g.Edge(u, v) ::
      dist[v] <= dist[u] + g.weight[u]
  }

  /** Once all labels are passed on, no walk is cheaper than the label it ends at. */
  lemma {:induction false} LabelsAreLeast(g: Graph, t: nat, dist: seq<nat>, trail: seq<seq<nat>>, w: seq<nat>, b: nat)
    requires g.Ok() && Labelled(g, t, dist, trail) && Relaxed(g, dist, {}) && g.Walk(w, t, b)
    ensures dist[b] < INITIAL_DISTANCE && dist[b] <= g.Cost(w)
  {
    if |w| > 1 {
      var u, front := w[|w| - 2], w[..|w| - 1];
      assert g.Edge(w[|w| - 2], w[|w| - 1]);
      LabelsAreLeast(g, t, dist, trail, front, u);
      LabelBound(g, t, dist, trail, u);
    }
  }

  lemma LabelsAreDistances(g: Graph, t: nat, dist: seq<nat>, trail: seq<seq<nat>>)
    requires g.Ok() && Labelled(g, t, dist, trail) && Relaxed(g, dist, {})
    ensures forall b | 0 <= b < |dist| :: IsDistance(g, t, b, dist[b])
  {
    forall b | 0 <= b < |dist| ensures IsDistance(g, t, b, dist[b]) {
      if dist[b] < INITIAL_DISTANCE {
        assert LabelledAt(g, t, dist, trail[b], b);
        TrailIsWalk(g, t, dist, trail[b]);
      }
      forall w | g.Walk(w, t, b) ensures dist[b] < INITIAL_DISTANCE && dist[b] <= g.Cost(w) {
        LabelsAreLeast(g, t, dist, trail, w, b);
      }
    }
  }

  /** A block has only one distance from a target. */
  lemma DistanceIsUnique(g: Graph, t: nat, b: nat, d: nat, d': nat)
    requires g.Ok() && IsDistance(g, t, b, d) && IsDistance(g, t, b, d')
    ensures d == d'
  {
    if d < INITIAL_DISTANCE {
      var w :| g.Walk(w, t, b) && g.Cost(w) == d;
      assert g.Walk(w, t, b);
    }
    if d' < INITIAL_DISTANCE {
      var w' :| g.Walk(w', t, b) && g.Cost(w') == d';
      assert g.Walk(w', t, b);
    }
  }

  /** All basic blocks: their links, their current distances, and the distances cached per target. */
  class Blocks {
    var graph: Graph
    var distance: seq<nat>
    var adjacencyList: map<nat, seq<nat>>

    constructor (g: Graph)
      requires g.Ok()
      ensures graph == g && Valid() && adjacencyList == map[]
    {
      graph, adjacencyList := g, map[];
      distance := seq(|g.weight|, _ => INITIAL_DISTANCE);
    }

    predicate Valid()
      reads this
    {
      graph.Ok() && |distance| == |graph.weight|
    }

    method ResetFlags()
      requires Valid()
      modifies this`distance
      ensures Valid() && distance == seq(|graph.weight|, _ => INITIAL_DISTANCE)
    {
      for i := 0 to |distance|
        invariant |distance| == |graph.weight|
        invariant forall k | 0 <= k < i :: distance[k] == INITIAL_DISTANCE
      {
        distance := distance[i := INITIAL_DISTANCE];
      }
      assert distance == seq(|graph.weight|, _ => INITIAL_DISTANCE);
    }

    /** One comparison of `update_distance`: lowers the label of v and queues it. */
    method Lower(ghost t: nat, u: nat, v: nat, updated: nat, q: seq<nat>, ghost trail: seq<seq<nat>>)
      returns (q': seq<nat>, ghost trail': seq<seq<nat>>)
      requires Valid() && Labelled(graph, t, distance, trail)
      requires u < |distance| && v < |distance| && graph.Edge(u, v)
      requires distance[u] < INITIAL_DISTANCE && updated == distance[u] + graph.weight[u]
      modifies this`distance
      ensures Valid() && Labelled(graph, t, distance, trail')
      ensures if updated < old(distance)[v]
              then q' == q + [v] && distance == old(distance)[v := updated] && Sum(distance) < Sum(old(distance))
              else q' == q && distance == old(distance)
    {
      q', trail' := q, trail;
      if updated < distance[v] {
        Relax(graph, t, distance, trail, u, v);
        SumUpdate(distance, v, updated);
        distance := distance[v := updated];
        trail' := trail[v := trail[u] + [v]];
        q' := q + [v];
      }
    }

    /** Between two comparisons: labels are sound, and those outside `waiting` are passed on. */
    ghost predicate Correcting(t: nat, q: seq<nat>, trail: seq<seq<nat>>, waiting: set<nat>)
      reads this
    {
      && Valid() && Labelled(graph, t, distance, trail)
      && (forall u | u in q :: u < |distance| && distance[u] < INITIAL_DISTANCE)
      && Relaxed(graph, distance, waiting)
    }

    /** One comparison, seen from the whole labelling. */
    method Compare(ghost t: nat, top: nat, v: nat, updated: nat, q: seq<nat>, ghost trail: seq<seq<nat>>)
      returns (q': seq<nat>, ghost trail': seq<seq<nat>>)
      requires Correcting(t, q, trail, Elements(q) + {top})
      requires top < |distance| && v < |distance| && graph.Edge(top, v)
      requires distance[top] < INITIAL_DISTANCE && updated == distance[top] + graph.weight[top] < INITIAL_DISTANCE
      modifies this`distance
      ensures Correcting(t, q', trail', Elements(q') + {top})
      ensures distance[v] <= updated && distance[top] == old(distance)[top]
      ensures forall k | 0 <= k < |distance| :: distance[k] <= old(distance)[k]
      ensures Sum(distance) < Sum(old(distance)) || (distance == old(distance) && q' == q)
    {
      q', trail' := Lower(t, top, v, updated, q, trail);
      StillRelaxed(graph, old(distance), distance, v, Elements(q) + {top}, Elements(q') + {top});
    }

    /** The loop over the predecessors of a block taken from the queue. */
    method ComparePredecessors(ghost t: nat, top: nat, updated: nat, q: seq<nat>, ghost trail: seq<seq<nat>>)
      returns (q': seq<nat>, ghost trail': seq<seq<nat>>)
      requires Correcting(t, q, trail, Elements(q) + {top})
      requires top < |distance| && distance[top] < INITIAL_DISTANCE
      requires updated == distance[top] + graph.weight[top] < INITIAL_DISTANCE
      modifies this`distance
      ensures Correcting(t, q', trail', Elements(q') + {top}) && distance[top] == old(distance)[top]
      ensures forall v | v in graph.predecessors[top] :: v < |distance| && distance[v] <= updated
      ensures Sum(distance) < Sum(old(distance)) || (distance == old(distance) && q' == q)
    {
      q', trail' := q, trail;
      var todo := graph.predecessors[top];
      while todo != {}
        invariant Correcting(t, q', trail', Elements(q') + {top}) && distance[top] == old(distance)[top]
        invariant todo <= graph.predecessors[top]
        invariant forall v | v in graph.predecessors[top] - todo :: v < |distance| && distance[v] <= updated
        invariant Sum(distance) < Sum(old(distance)) || (distance == old(distance) && q' == q)
        decreases todo
      {
        var v :| v in todo;
        todo := todo - {v};
        q', trail' := Compare(t, top, v, updated, q', trail');
      }
    }

    /** The comparison with the dominator of the block. */
    method CompareDominator(ghost t: nat, top: nat, updated: nat, q: seq<nat>, ghost trail: seq<seq<nat>>)
      returns (q': seq<nat>, ghost trail': seq<seq<nat>>)
      requires Correcting(t, q, trail, Elements(q) + {top})
      requires top < |distance| && distance[top] < INITIAL_DISTANCE
      requires updated == distance[top] + graph.weight[top] < INITIAL_DISTANCE
      requires forall v | v in graph.predecessors[top] :: v < |distance| && distance[v] <= updated
      modifies this`distance
      ensures Correcting(t, q', trail', Elements(q') + {top})
      ensures forall v | 0 <= v < |distance| && graph.Edge(top, v) :: distance[v] <= distance[top] + graph.weight[top]
      ensures Sum(distance) < Sum(old(distance)) || (distance == old(distance) && q' == q)
    {
      q', trail' := q, trail;
      if graph.idom[top].Some? {
        q', trail' := Compare(t, top, graph.idom[top].value, updated, q, trail);
      }
    }

    /** The label a block offers, in unsigned arithmetic. */
    method LabelThrough(ghost t: nat, top: nat, ghost trail: seq<seq<nat>>) returns (updated: nat)
      requires Valid() && Labelled(graph, t, distance, trail) && top < |distance| && distance[top] < INITIAL_DISTANCE
      ensures updated == distance[top] + graph.weight[top] < INITIAL_DISTANCE
    {
      LabelBound(graph, t, distance, trail, top);
      updated := (distance[top] + graph.weight[top]) % UINT_RANGE;
    }

    /** One block taken from the queue: its predecessors and its dominator are compared. */
    method PassOn(ghost t: nat, top: nat, q: seq<nat>, ghost trail: seq<seq<nat>>)
      returns (q': seq<nat>, ghost trail': seq<seq<nat>>)
      requires Correcting(t, q, trail, Elements(q) + {top}) && top < |distance| && distance[top] < INITIAL_DISTANCE
      modifies this`distance
      ensures Correcting(t, q', trail', Elements(q'))
      ensures Sum(distance) < Sum(old(distance)) || (distance == old(distance) && q' == q)
    {
      var updated := LabelThrough(t, top, trail);
      q', trail' := ComparePredecessors(t, top, updated, q, trail);
      q', trail' := CompareDominator(t, top, updated, q', trail');
      AllPassedOn(graph, distance, Elements(q'), top);
    }

    /** Queue-based label correction; it ends although a block may be queued many times. */
    method UpdateDistance(t: nat)
      requires Valid() && t < |distance|
      modifies this`distance
      ensures Valid()
      ensures forall b | 0 <= b < |distance| :: IsDistance(graph, t, b, distance[b])
    {
      ResetFlags();
      StartIsLabelled(graph, t);
      distance := distance[t := 0];
      ghost var trail := seq(|distance|, _ => [t]);
      var q: seq<nat> := [t];
      while q != []
        invariant Correcting(t, q, trail, Elements(q))
        decreases Sum(distance), |q|
      {
        var top := q[0];
        assert top in q;
        Popped(q);
        StillRelaxed(graph, distance, distance, top, Elements(q), Elements(q[1..]) + {top});
        q, trail := PassOn(t, top, q[1..], trail);
      }
      assert Elements(q) == {};
      LabelsAreDistances(graph, t, distance, trail);
    }

    /** The caches are right for every target, whatever the order of the targets. */
    method UpdateAllDistances(targets: seq<nat>)
      requires Valid() && forall t | t in targets :: t < |distance|
      modifies this`distance, this`adjacencyList
      ensures Valid()
      ensures forall t | t in targets ::
                && t in adjacencyList && |adjacencyList[t]| == |graph.weight|
                && forall b | 0 <= b < |graph.weight| :: IsDistance(graph, t, b, adjacencyList[t][b])
    {
      for i := 0 to |targets|
        invariant Valid() && forall t | t in targets :: t < |distance|
        invariant forall k | 0 <= k < i ::
                    && targets[k] in adjacencyList && |adjacencyList[targets[k]]| == |graph.weight|
                    && forall b | 0 <= b < |graph.weight| ::
                         IsDistance(graph, targets[k], b, adjacencyList[targets[k]][b])
      {
        assert targets[i] in targets;
        UpdateDistance(targets[i]);
        adjacencyList := adjacencyList[targets[i] := distance];
      }
    }
  }

  /** Lowering one label, and queueing its block, leaves the others passed on. */
  lemma StillRelaxed(g: Graph, before: seq<nat>, after: seq<nat>, v: nat, waiting: set<nat>, waiting': set<nat>)
    requires g.Ok() && |before| == |after| == |g.weight| && v < |after|
    requires Relaxed(g, before, waiting) && waiting <= waiting'
    requires forall k | 0 <= k < |after| && k != v :: after[k] == before[k]
    requires after[v] <= before[v]
    requires after[v] == before[v] || v in waiting'
    ensures Relaxed(g, after, waiting')
  {
  }

  /** When all links of `top` have been compared, it needs no exception any more. */
  lemma AllPassedOn(g: Graph, dist: seq<nat>, waiting: set<nat>, top: nat)
    requires g.Ok() && |dist| == |g.weight| && top < |dist| && Relaxed(g, dist, waiting + {top})
    requires forall v | 0 <= v < |dist| && g.Edge(top, v) :: dist[v] <= dist[top] + g.weight[top]
    ensures Relaxed(g, dist, waiting)
  {
  }

  lemma Popped(q: seq<nat>)
    requires q != []
    ensures Elements(q) <= Elements(q[1..]) + {q[0]}
    ensures forall u | u in q[1..] :: u in q
  {
  }

  lemma StartIsLabelled(g: Graph, t: nat)
    requires g.Ok() && t < |g.weight|
    ensures var dist := seq(|g.weight|, _ => INITIAL_DISTANCE)[t := 0];
            && Labelled(g, t, dist, seq(|dist|, _ => [t]))
            && Relaxed(g, dist, Elements([t]))
  {
    var dist := seq(|g.weight|, _ => INITIAL_DISTANCE)[t := 0];
    assert LabelledAt(g, t, dist, [t], t);
    assert t in Elements([t]);
  }
}
