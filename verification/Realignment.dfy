/** Edge realignment: from the targets backwards, branch blocks get as predecessors the blocks
    whose assignments can make their condition become true. */
module Realignment {
  import opened Basics

  /** An assignment to a state variable, and the block it is in. */
  datatype Writer = Writer(assign: nat, block: nat)

  /** What a block starts with: nothing, an ordinary assignment, or a branch. A branch comes with
      whether its condition reads state variables, and with all assignments to these. */
  datatype Kind = Empty | Plain | Branch(hasState: bool, writers: seq<Writer>)

  /** The solver's answer for a branch block and an assignment; any answers are allowed. */
  type Oracle = (nat, nat) -> bool

  datatype Design = Design(kind: seq<Kind>, idom: seq<Option<nat>>) {
    predicate Ok() {
      && |kind| == |idom|
      && (forall b, w | 0 <= b < |kind| && kind[b].Branch? && w in kind[b].writers :: w.block < |kind|)
      && (forall b | 0 <= b < |idom| && idom[b].Some? :: idom[b].value < |kind|)
    }

    predicate ReadsState(b: nat)
      requires Ok() && b < |kind|
    {
      kind[b].Branch? && kind[b].hasState
    }

    /** The blocks of the assignments the solver accepts for a branch block. */
    function Accepted(b: nat, sat: Oracle): (s: set<nat>)
      requires Ok() && b < |kind| && kind[b].Branch?
      ensures forall u | u in s :: u < |kind|
    {
      AcceptedAmong(kind[b].writers, b, sat)
    }

    /** The blocks that are looked at because b is. */
    function Next(b: nat, sat: Oracle): (s: set<nat>)
      requires Ok() && b < |kind|
      ensures forall u | u in s :: u < |kind|
    {
      if ReadsState(b) then Accepted(b, sat)
      else if kind[b].Plain? || idom[b].None? then {}
      else {idom[b].value}
    }

    /** The predecessors a processed block ends with. */
    function Realigned(b: nat, links: set<nat>, sat: Oracle): set<nat>
      requires Ok() && b < |kind|
    {
      if ReadsState(b) && Accepted(b, sat) != {} then Accepted(b, sat) else links
    }

    /** A chain of blocks, each looked at because of the one before. */
    ghost predicate Chain(c: seq<nat>, targets: seq<nat>, sat: Oracle)
      requires Ok()
    {
      && c != [] && c[0] in targets && (forall k | 0 <= k < |c| :: c[k] < |kind|)
      && (forall a, b | 0 <= a && b == a + 1 < |c| :: c[b] in Next(c[a], sat))
    }

    /** Block b is looked at because of some target. */
    ghost predicate Reached(b: nat, targets: seq<nat>, sat: Oracle)
      requires Ok()
    {
      exists c :: Chain(c, targets, sat) && c[|c| - 1] == b
    }
  }

  function AcceptedAmong(writers: seq<Writer>, b: nat, sat: Oracle): set<nat>
  {
    set w | w in writers && sat(b, w.assign) :: w.block
  }

  lemma AcceptedSnoc(writers: seq<Writer>, i: nat, b: nat, sat: Oracle)
    requires i < |writers|
    ensures AcceptedAmong(writers[..i + 1], b, sat)
         == AcceptedAmong(writers[..i], b, sat) + if sat(b, writers[i].assign) then {writers[i].block} else {}
  {
    assert writers[..i + 1] == writers[..i] + [writers[i]];
  }

  lemma ReachedNext(d: Design, u: nat, v: nat, targets: seq<nat>, sat: Oracle)
    requires d.Ok() && u < |d.kind| && d.Reached(u, targets, sat) && v in d.Next(u, sat)
    ensures d.Reached(v, targets, sat)
  {
    var c :| d.Chain(c, targets, sat) && c[|c| - 1] == u;
    assert d.Chain(c + [v], targets, sat);
    assert (c + [v])[|c + [v]| - 1] == v;
  }

  function Unset(flags: seq<bool>): nat {
    if flags == [] then 0 else Unset(flags[..|flags| - 1]) + if flags[|flags| - 1] then 0 else 1
  }

  lemma {:induction false} UnsetDrops(flags: seq<bool>, b: nat)
    requires b < |flags| && !flags[b]
    ensures Unset(flags[b := true]) == Unset(flags) - 1
  {
    var n := |flags| - 1;
    if b < n {
      UnsetDrops(flags[..n], b);
      assert flags[b := true][..n] == flags[..n][b := true];
    } else {
      assert flags[b := true][..n] == flags[..n];
    }
  }

  /** Flags closed under `Next` that include the targets include every reached block. */
  lemma {:induction false} ClosedHoldsChain(d: Design, flags: seq<bool>, c: seq<nat>, targets: seq<nat>, sat: Oracle)
    requires d.Ok() && |flags| == |d.kind| && d.Chain(c, targets, sat)
    requires forall t | t in targets :: t < |flags| && flags[t]
    requires forall b, u | 0 <= b < |flags| && flags[b] && u in d.Next(b, sat) :: flags[u]
    ensures flags[c[|c| - 1]]
  {
    if |c| > 1 {
      ClosedHoldsChain(d, flags, c[..|c| - 1], targets, sat);
      assert c[|c| - 1] in d.Next(c[|c| - 2], sat);
    }
  }

  /** The flags with those of `s` set too. */
  function Flagged(flags: seq<bool>, s: set<nat>): (r: seq<bool>)
    ensures |r| == |flags|
  {
    seq(|flags|, u requires 0 <= u < |flags| => flags[u] || u in s)
  }

  /** The flagged blocks are those queued or done, and `once` says that none is so twice. */
  ghost predicate Tracks(flags: seq<bool>, queue: seq<nat>, done: set<nat>, once: bool)
  {
    && (forall b | b in queue || b in done :: b < |flags|)
    && (forall b | 0 <= b < |flags| :: flags[b] <==> b in queue || b in done)
    && (once ==> Distinct(queue) && forall b | b in queue :: b !in done)
  }

  /** What is flagged is reached, and exactly the done blocks are realigned and have their next blocks flagged. */
  ghost predicate Sound(d: Design, targets: seq<nat>, sat: Oracle, before: seq<set<nat>>, preds: seq<set<nat>>,
                        flags: seq<bool>, done: set<nat>)
    requires d.Ok()
  {
    && |before| == |preds| == |flags| == |d.kind|
    && (forall t | t in targets :: t < |flags| && flags[t])
    && (forall b | 0 <= b < |flags| && flags[b] :: d.Reached(b, targets, sat))
    && (forall b, u | b in done && b < |flags| && u in d.Next(b, sat) :: flags[u])
    && (forall b | 0 <= b < |flags| :: preds[b] == if b in done then d.Realigned(b, before[b], sat) else before[b])
  }

  /** Processing a flagged block keeps the worklist sound. */
  lemma StaysSound(d: Design, targets: seq<nat>, sat: Oracle, before: seq<set<nat>>, preds: seq<set<nat>>,
                   flags: seq<bool>, done: set<nat>, b: nat)
    requires d.Ok() && Sound(d, targets, sat, before, preds, flags, done) && b < |d.kind| && flags[b]
    ensures Sound(d, targets, sat, before, preds[b := d.Realigned(b, preds[b], sat)],
                  Flagged(flags, d.Next(b, sat)), done + {b})
  {
    forall v | v in d.Next(b, sat) ensures d.Reached(v, targets, sat) {
      ReachedNext(d, b, v, targets, sat);
    }
  }

  // ----- the rules, block by block -----

  /** A block without statements, or a branch that reads no state: its dominator must be looked at. */
  predicate PassesToDominator(d: Design, b: nat)
    requires b < |d.kind|
  {
    d.kind[b].Empty? || (d.kind[b].Branch? && !d.kind[b].hasState)
  }

  /** The branch b reads state, and the solver accepts an assignment in block u for it. */
  ghost predicate AcceptsFrom(d: Design, b: nat, u: nat, sat: Oracle)
    requires b < |d.kind|
  {
    d.kind[b].Branch? && d.kind[b].hasState && exists w | w in d.kind[b].writers :: sat(b, w.assign) && w.block == u
  }

  /** The blocks `s` include the targets, the dominators that must be looked at, and the accepted blocks. */
  ghost predicate ClosedFor(d: Design, s: set<nat>, targets: seq<nat>, sat: Oracle)
    requires d.Ok()
  {
    && (forall t | t in targets :: t in s)
    && (forall b | b in s && b < |d.kind| && PassesToDominator(d, b) && d.idom[b].Some? :: d.idom[b].value in s)
    && (forall b, u | b in s && b < |d.kind| && AcceptsFrom(d, b, u, sat) :: u in s)
  }

  /** The predecessors of a processed block: the accepted blocks if there are any, else what they were. */
  ghost predicate HasRealigned(d: Design, b: nat, before: set<nat>, after: set<nat>, sat: Oracle)
    requires b < |d.kind|
  {
    if exists u :: AcceptsFrom(d, b, u, sat)
    then forall u :: u in after <==> AcceptsFrom(d, b, u, sat)
    else after == before
  }

  lemma NextByRules(d: Design, b: nat, u: nat, sat: Oracle)
    requires d.Ok() && b < |d.kind|
    ensures u in d.Next(b, sat) <==>
              AcceptsFrom(d, b, u, sat) || (PassesToDominator(d, b) && d.idom[b] == Some(u))
  {
  }

  lemma RealignedByRules(d: Design, b: nat, links: set<nat>, sat: Oracle)
    requires d.Ok() && b < |d.kind|
    ensures HasRealigned(d, b, links, d.Realigned(b, links, sat), sat)
  {
    forall u ensures AcceptsFrom(d, b, u, sat) <==> d.ReadsState(b) && u in d.Accepted(b, sat) {
    }
    if d.ReadsState(b) && d.Accepted(b, sat) != {} {
      var u :| u in d.Accepted(b, sat);
      assert AcceptsFrom(d, b, u, sat);
    }
  }

  /** The reached blocks are closed, and every closed set includes them. */
  lemma ReachedIsLeastClosed(d: Design, done: set<nat>, targets: seq<nat>, sat: Oracle)
    requires d.Ok() && (forall b | b in done :: b < |d.kind|) && forall t | t in targets :: t < |d.kind|
    requires forall b | 0 <= b < |d.kind| :: b in done <==> d.Reached(b, targets, sat)
    ensures ClosedFor(d, done, targets, sat)
    ensures forall s | ClosedFor(d, s, targets, sat) :: done <= s
  {
    forall t | t in targets ensures t in done {
      assert d.Chain([t], targets, sat);
    }
    forall b, u | b in done && u in d.Next(b, sat) ensures u in done {
      ReachedNext(d, b, u, targets, sat);
    }
    forall b: nat, u: nat | b < |d.kind| ensures
      u in d.Next(b, sat) <==> AcceptsFrom(d, b, u, sat) || (PassesToDominator(d, b) && d.idom[b] == Some(u))
    {
      NextByRules(d, b, u, sat);
    }
    forall s | ClosedFor(d, s, targets, sat) ensures done <= s {
      forall b | b in done ensures b in s {
        var c :| d.Chain(c, targets, sat) && c[|c| - 1] == b;
        ClosedSetHoldsChain(d, s, c, targets, sat);
      }
    }
  }

  lemma {:induction false} ClosedSetHoldsChain(d: Design, s: set<nat>, c: seq<nat>, targets: seq<nat>, sat: Oracle)
    requires d.Ok() && ClosedFor(d, s, targets, sat) && d.Chain(c, targets, sat)
    ensures c[|c| - 1] in s
  {
    if |c| > 1 {
      var u, v := c[|c| - 2], c[|c| - 1];
      ClosedSetHoldsChain(d, s, c[..|c| - 1], targets, sat);
      assert v in d.Next(u, sat);
      NextByRules(d, u, v, sat);
    }
  }

  class Realigner {
    const d: Design
    var predecessors: seq<set<nat>>
    var isEdgeUpdated: seq<bool>
    var queue: seq<nat>
    ghost var done: set<nat>
    ghost var steps: nat

    constructor (d: Design, predecessors: seq<set<nat>>)
      requires d.Ok() && |predecessors| == |d.kind|
      ensures this.d == d && this.predecessors == predecessors && Fresh()
    {
      this.d, this.predecessors := d, predecessors;
      isEdgeUpdated := seq(|d.kind|, _ => false);
      queue, done, steps := [], {}, 0;
    }

    predicate Sized()
      reads this
    {
      d.Ok() && |predecessors| == |isEdgeUpdated| == |d.kind|
    }

    /** Nothing has been looked at yet. */
    ghost predicate Fresh()
      reads this
    {
      Sized() && queue == [] && done == {} && steps == 0 && forall b | 0 <= b < |isEdgeUpdated| :: !isEdgeUpdated[b]
    }

    method PushIfNew(b: nat, ghost once: bool)
      requires Sized() && Tracks(isEdgeUpdated, queue, done, once) && b < |d.kind|
      modifies this`isEdgeUpdated, this`queue
      ensures Sized() && Tracks(isEdgeUpdated, queue, done, once)
      ensures isEdgeUpdated == Flagged(old(isEdgeUpdated), {b})
      ensures Unset(isEdgeUpdated) < Unset(old(isEdgeUpdated))
           || (isEdgeUpdated == old(isEdgeUpdated) && queue == old(queue))
    {
      if !isEdgeUpdated[b] {
        UnsetDrops(isEdgeUpdated, b);
        isEdgeUpdated := isEdgeUpdated[b := true];
        queue := queue + [b];
      }
    }

    /** An accepted assignment: the first one replaces the predecessors, the others are added. */
    method AcceptWriter(b: nat, u: nat, first: bool, ghost once: bool)
      requires Sized() && Tracks(isEdgeUpdated, queue, done, once) && b < |d.kind| && u < |d.kind|
      modifies this`predecessors, this`isEdgeUpdated, this`queue
      ensures Sized() && Tracks(isEdgeUpdated, queue, done, once)
      ensures isEdgeUpdated == Flagged(old(isEdgeUpdated), {u})
      ensures predecessors == old(predecessors)[b := (if first then {} else old(predecessors)[b]) + {u}]
      ensures Unset(isEdgeUpdated) < Unset(old(isEdgeUpdated))
           || (isEdgeUpdated == old(isEdgeUpdated) && queue == old(queue))
    {
      if first {
        predecessors := predecessors[b := {}];
      }
      predecessors := predecessors[b := predecessors[b] + {u}];
      PushIfNew(u, once);
    }

    /** The loop over the assignments to the state variables of a branch. */
    method UpdateBranchEdge(b: nat, sat: Oracle, ghost once: bool)
      requires Sized() && Tracks(isEdgeUpdated, queue, done, once) && b < |d.kind| && d.ReadsState(b)
      modifies this`predecessors, this`isEdgeUpdated, this`queue
      ensures Sized() && Tracks(isEdgeUpdated, queue, done, once)
      ensures isEdgeUpdated == Flagged(old(isEdgeUpdated), d.Next(b, sat))
      ensures predecessors == old(predecessors)[b := d.Realigned(b, old(predecessors)[b], sat)]
      ensures Unset(isEdgeUpdated) < Unset(old(isEdgeUpdated))
           || (isEdgeUpdated == old(isEdgeUpdated) && queue == old(queue))
    {
      var onlyEdge, writers := true, d.kind[b].writers;
      ghost var accepted: set<nat> := {};
      for i := 0 to |writers|
        invariant Sized() && Tracks(isEdgeUpdated, queue, done, once)
        invariant accepted == AcceptedAmong(writers[..i], b, sat) && (onlyEdge <==> accepted == {})
        invariant isEdgeUpdated == Flagged(old(isEdgeUpdated), accepted)
        invariant predecessors == old(predecessors)[b := if onlyEdge then old(predecessors)[b] else accepted]
        invariant Unset(isEdgeUpdated) < Unset(old(isEdgeUpdated))
               || (isEdgeUpdated == old(isEdgeUpdated) && queue == old(queue))
      {
        AcceptedSnoc(writers, i, b, sat);
        if sat(b, writers[i].assign) {
          assert writers[i] in writers;
          AcceptWriter(b, writers[i].block, onlyEdge, once);
          onlyEdge := false;
          accepted := accepted + {writers[i].block};
        }
      }
      assert writers[..|writers|] == writers;
    }

    /** `update_edge` of one block. */
    method UpdateEdge(b: nat, sat: Oracle, ghost once: bool)
      requires Sized() && Tracks(isEdgeUpdated, queue, done, once) && b < |d.kind|
      modifies this`predecessors, this`isEdgeUpdated, this`queue
      ensures Sized() && Tracks(isEdgeUpdated, queue, done, once)
      ensures isEdgeUpdated == Flagged(old(isEdgeUpdated), d.Next(b, sat))
      ensures predecessors == old(predecessors)[b := d.Realigned(b, old(predecessors)[b], sat)]
      ensures Unset(isEdgeUpdated) < Unset(old(isEdgeUpdated))
           || (isEdgeUpdated == old(isEdgeUpdated) && queue == old(queue))
    {
      if d.ReadsState(b) {
        UpdateBranchEdge(b, sat, once);
      } else if !d.kind[b].Plain? && d.idom[b].Some? {
        PushIfNew(d.idom[b].value, once);
      }
    }

    method PushTargets(targets: seq<nat>, ghost sat: Oracle)
      requires Fresh() && forall t | t in targets :: t < |d.kind|
      modifies this`isEdgeUpdated, this`queue
      ensures Sized() && Tracks(isEdgeUpdated, queue, done, Distinct(targets))
      ensures Sound(d, targets, sat, predecessors, predecessors, isEdgeUpdated, done)
    {
      for i := 0 to |targets|
        invariant |isEdgeUpdated| == |d.kind| && queue == targets[..i]
        invariant forall b | 0 <= b < |d.kind| :: isEdgeUpdated[b] <==> b in queue
      {
        assert targets[i] in targets;
        isEdgeUpdated := isEdgeUpdated[targets[i] := true];
        queue := queue + [targets[i]];
      }
      assert queue == targets;
      forall b | b in targets ensures d.Reached(b, targets, sat) {
        assert d.Chain([b], targets, sat);
      }
    }

    /** One block of the worklist. */
    method ProcessFirst(ghost targets: seq<nat>, sat: Oracle, ghost before: seq<set<nat>>, ghost once: bool)
      requires Sized() && Tracks(isEdgeUpdated, queue, done, once) && queue != []
      requires Sound(d, targets, sat, before, predecessors, isEdgeUpdated, done)
      requires once ==> steps == |done|
      modifies this
      ensures Sized() && Tracks(isEdgeUpdated, queue, done, once)
      ensures Sound(d, targets, sat, before, predecessors, isEdgeUpdated, done)
      ensures steps == old(steps) + 1 && (once ==> steps == |done|)
      ensures Unset(isEdgeUpdated) < Unset(old(isEdgeUpdated))
           || (isEdgeUpdated == old(isEdgeUpdated) && |queue| < |old(queue)|)
    {
      var current := queue[0];
      assert current in queue;
      StaysSound(d, targets, sat, before, predecessors, isEdgeUpdated, done, current);
      PopTracks(isEdgeUpdated, queue, done, once);
      queue, done, steps := queue[1..], done + {current}, steps + 1;
      UpdateEdge(current, sat, once);
    }

    /** The targets and the blocks reached from them are processed, each by its own rule, and no others: the
        processed blocks are the least set that includes the targets, the dominators of its blocks without
        statements and of its branches without state, and the blocks of accepted assignments. With distinct
        targets, each is processed once. */
    method EdgeRealignment(targets: seq<nat>, sat: Oracle)
      requires Fresh() && forall t | t in targets :: t < |d.kind|
      modifies this
      ensures Sized()
      ensures forall b | 0 <= b < |d.kind| :: b in done <==> d.Reached(b, targets, sat)
      ensures forall b | 0 <= b < |d.kind| ::
                predecessors[b] == if d.Reached(b, targets, sat)
                                   then d.Realigned(b, old(predecessors)[b], sat)
                                   else old(predecessors)[b]
      ensures ClosedFor(d, done, targets, sat) && forall s | ClosedFor(d, s, targets, sat) :: done <= s
      ensures forall b | 0 <= b < |d.kind| ::
                if b in done then HasRealigned(d, b, old(predecessors)[b], predecessors[b], sat)
                else predecessors[b] == old(predecessors)[b]
      ensures Distinct(targets) ==> steps == |done|
    {
      ghost var once := Distinct(targets);
      PushTargets(targets, sat);
      while queue != []
        invariant Sized() && Tracks(isEdgeUpdated, queue, done, once)
        invariant Sound(d, targets, sat, old(predecessors), predecessors, isEdgeUpdated, done)
        invariant once ==> steps == |done|
        decreases Unset(isEdgeUpdated), |queue|
      {
        ProcessFirst(targets, sat, old(predecessors), once);
      }
      DoneMeansReached(d, targets, sat, old(predecessors), predecessors, isEdgeUpdated, done);
      ReachedIsLeastClosed(d, done, targets, sat);
      forall b | b in done ensures HasRealigned(d, b, old(predecessors)[b], predecessors[b], sat) {
        RealignedByRules(d, b, old(predecessors)[b], sat);
      }
    }
  }

  /** With an empty queue, the done blocks are the reached ones. */
  lemma DoneMeansReached(d: Design, targets: seq<nat>, sat: Oracle, before: seq<set<nat>>, preds: seq<set<nat>>,
                         flags: seq<bool>, done: set<nat>)
    requires d.Ok() && Sound(d, targets, sat, before, preds, flags, done)
    requires forall b | 0 <= b < |flags| :: flags[b] <==> b in done
    ensures forall b | 0 <= b < |flags| :: b in done <==> d.Reached(b, targets, sat)
  {
    forall b | 0 <= b < |flags| && d.Reached(b, targets, sat) ensures flags[b] {
      var c :| d.Chain(c, targets, sat) && c[|c| - 1] == b;
      ClosedHoldsChain(d, flags, c, targets, sat);
    }
  }

  /** Taking the first block off the queue. */
  lemma PopTracks(flags: seq<bool>, queue: seq<nat>, done: set<nat>, once: bool)
    requires Tracks(flags, queue, done, once) && queue != []
    ensures Tracks(flags, queue[1..], done + {queue[0]}, once)
    ensures once ==> queue[0] !in done
  {
    assert queue[0] in queue;
    assert forall b | b in queue :: b == queue[0] || b in queue[1..];
    assert forall b | b in queue[1..] :: b in queue;
    if once {
      assert forall k | 0 <= k < |queue[1..]| :: queue[1..][k] == queue[k + 1] != queue[0];
    }
  }
}
