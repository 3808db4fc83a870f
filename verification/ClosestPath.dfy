/** The simulated path kept for a target: the earliest one that comes closest to it. */
module ClosestPath {
  import opened Basics
  import opened Distance

  /** A stack entry: the block of its statement, if it has one, and its clock. */
  datatype Entry = Entry(block: Option<nat>, clock: nat)

  /** How close a path comes: the distance, then the clock at which it is reached. */
  datatype Key = Key(distance: nat, clock: nat) {
    predicate Less(other: Key) {
      distance < other.distance || (distance == other.distance && clock < other.clock)
    }
  }

  const FARTHEST := Key(INITIAL_DISTANCE, INITIAL_DISTANCE)

  predicate StackFits(adjacency: seq<nat>, stack: seq<Entry>) {
    forall e | e in stack && e.block.Some? :: e.block.value < |adjacency|
  }

  function KeyOf(adjacency: seq<nat>, e: Entry): Key
    requires e.block.Some? && e.block.value < |adjacency|
  {
    Key(adjacency[e.block.value], e.clock)
  }

  /** The lexicographically least key among the entries, or the farthest key. */
  ghost predicate IsLeastKey(adjacency: seq<nat>, stack: seq<Entry>, k: Key)
    requires StackFits(adjacency, stack)
  {
    && (k == FARTHEST || exists e | e in stack && e.block.Some? :: k == KeyOf(adjacency, e))
    && !FARTHEST.Less(k)
    && (forall e | e in stack && e.block.Some? :: !KeyOf(adjacency, e).Less(k))
  }

  lemma LeastKeyIsUnique(adjacency: seq<nat>, stack: seq<Entry>, k: Key, k': Key)
    requires StackFits(adjacency, stack) && IsLeastKey(adjacency, stack, k) && IsLeastKey(adjacency, stack, k')
    ensures k == k'
  {
    assert !k.Less(k') && !k'.Less(k);
  }

  method DistanceFromCurrentPath(adjacency: seq<nat>, stack: seq<Entry>) returns (k: Key)
    requires StackFits(adjacency, stack)
    ensures IsLeastKey(adjacency, stack, k)
  {
    var minDist, minClock := INITIAL_DISTANCE, INITIAL_DISTANCE;
    for i := 0 to |stack|
      invariant IsLeastKey(adjacency, stack[..i], Key(minDist, minClock))
    {
      var e := stack[i];
      assert stack[..i + 1] == stack[..i] + [e];
      if e.block.Some? {
        var dist := adjacency[e.block.value];
        if dist < minDist || (dist == minDist && e.clock < minClock) {
          minDist, minClock := dist, e.clock;
          assert KeyOf(adjacency, e) == Key(minDist, minClock);
        }
      }
    }
    assert stack[..|stack|] == stack;
    k := Key(minDist, minClock);
  }

  /** Entry k holds path p and key, and all earlier ones are farther. */
  ghost predicate FirstWith(seen: seq<(nat, Key)>, k: nat, p: nat, key: Key) {
    k < |seen| && seen[k] == (p, key) && forall m | 0 <= m < k :: key.Less(seen[m].1)
  }

  /** A target block with its cached distances and the closest path found so far. */
  class Target {
    const adjacency: seq<nat>
    var closestPath: Option<nat>
    var closestKey: Key
    ghost var seen: seq<(nat, Key)>

    /** The kept path is the earliest of all paths seen whose key no other path beats. */
    ghost predicate KeepsEarliestBest()
      reads this
    {
      && (forall m | 0 <= m < |seen| :: !seen[m].1.Less(closestKey))
      && match closestPath
         case None => closestKey == FARTHEST
         case Some(p) => closestKey.Less(FARTHEST) && exists k :: FirstWith(seen, k, p, closestKey)
    }

    constructor (adjacency: seq<nat>)
      ensures this.adjacency == adjacency && seen == [] && KeepsEarliestBest()
    {
      this.adjacency := adjacency;
      closestPath, closestKey, seen := None, FARTHEST, [];
    }

    method UpdateClosestPath(path: nat, stack: seq<Entry>)
      requires KeepsEarliestBest() && StackFits(adjacency, stack)
      modifies this
      ensures KeepsEarliestBest()
      ensures |seen| == |old(seen)| + 1 && seen[..|old(seen)|] == old(seen)
      ensures seen[|old(seen)|].0 == path && IsLeastKey(adjacency, stack, seen[|old(seen)|].1)
    {
      var key := DistanceFromCurrentPath(adjacency, stack);
      ghost var n := |seen|;
      seen := seen + [(path, key)];
      if key.Less(closestKey) {
        closestPath, closestKey := Some(path), key;
        assert FirstWith(seen, n, path, closestKey);
      } else if closestPath.Some? {
        ghost var k :| FirstWith(old(seen), k, closestPath.value, closestKey);
        assert FirstWith(seen, k, closestPath.value, closestKey);
      }
    }
  }

  /** `update_all_closest_paths`: every open target sees the path once. */
  method UpdateAllClosestPaths(targets: seq<Target>, path: nat, stack: seq<Entry>)
    requires forall a, b | 0 <= a < b < |targets| :: targets[a] != targets[b]
    requires forall t | t in targets :: t.KeepsEarliestBest() && StackFits(t.adjacency, stack)
    modifies targets
    ensures forall t | t in targets ::
              && t.KeepsEarliestBest() && |t.seen| == |old(t.seen)| + 1
              && t.seen[..|old(t.seen)|] == old(t.seen) && t.seen[|old(t.seen)|].0 == path
              && IsLeastKey(t.adjacency, stack, t.seen[|old(t.seen)|].1)
  {
    for i := 0 to |targets|
      invariant forall k | i <= k < |targets| ::
                  targets[k].KeepsEarliestBest() && targets[k].seen == old(targets[k].seen)
      invariant forall k | 0 <= k < i ::
                  var t := targets[k];
                  && t.KeepsEarliestBest() && |t.seen| == |old(t.seen)| + 1
                  && t.seen[..|old(t.seen)|] == old(t.seen) && t.seen[|old(t.seen)|].0 == path
                  && IsLeastKey(t.adjacency, stack, t.seen[|old(t.seen)|].1)
    {
      targets[i].UpdateClosestPath(path, stack);
    }
  }
}
