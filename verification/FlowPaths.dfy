/** Paths through the built graph: no cycles, dominators, and every block between entry and exit. */
module FlowPaths {
  import opened Basics
  import opened ControlFlow

  ghost predicate Path(g: Cfg, p: seq<nat>, from: nat, to: nat)
    requires g.Ok()
  {
    && p != [] && p[0] == from && p[|p| - 1] == to
    && (forall k | 0 <= k < |p| :: p[k] < g.Size())
    && (forall a, b | 0 <= a && b == a + 1 < |p| :: p[b] in g.succs[p[a]])
  }

  // ----- dominators -----

  /** A path into a guarded region passes the dominator. */
  lemma {:induction false} PassesDominator(g: Cfg, p: seq<nat>, from: nat, to: nat, b: nat, lo: nat, hi: nat)
    requires g.Ok() && g.Mirrored() && Region(g, b, lo, hi) && Path(g, p, from, to)
    requires !(lo <= from < hi) && lo <= to < hi
    ensures g.idom[b].value in p
  {
    var u, front := p[|p| - 2], p[..|p| - 1];
    assert p[|p| - 1] in g.succs[u];
    assert u in g.preds[to];
    if lo <= u < hi {
      PassesDominator(g, front, from, u, b, lo, hi);
    }
  }

  /** Every `idom` link leads to a block that lies on every path from the entry to the block. */
  lemma IdomDominates(s: Stmt)
    ensures var g := Emit(Entry(), s);
            forall b | 0 < b < g.Size() ::
              && g.idom[b].Some? && g.idom[b].value != b
              && forall p | Path(g, p, 0, b) :: g.idom[b].value in p
  {
    var g := Emit(Entry(), s);
    EmitGrows(Entry(), s);
    EmitGuards(Entry(), s);
    forall b | 0 < b < g.Size()
      ensures g.idom[b].Some? && g.idom[b].value != b && forall p | Path(g, p, 0, b) :: g.idom[b].value in p
    {
      assert Guarded(g, b, 1);
      var lo, hi :| 1 <= lo && Region(g, b, lo, hi);
      forall p | Path(g, p, 0, b) ensures g.idom[b].value in p {
        PassesDominator(g, p, 0, b, b, lo, hi);
      }
    }
  }

  // ----- acyclicity -----

  /** Ranks that grow along every link. */
  ghost predicate Ranked(g: Cfg, r: seq<real>)
    requires g.Ok()
  {
    |r| == g.Size() && forall v, u | 0 <= v < g.Size() && u in g.preds[v] :: r[u] < r[v]
  }

  lemma RankBlock(g: Cfg, weight: nat, r: seq<real>, x: real)
    requires g.Ok() && Ranked(g, r)
    ensures Ranked(AddBlock(g, weight), r + [x])
  {
  }

  lemma RankLink(g: Cfg, u: nat, v: nat, r: seq<real>)
    requires g.Ok() && Ranked(g, r) && u < g.Size() && v < g.Size() && r[u] < r[v]
    ensures Ranked(Link(g, u, v), r)
  {
  }

  lemma RankFork(g: Cfg, weight: nat, r: seq<real>, x: real)
    requires g.Ok() && Ranked(g, r) && r[g.top] < x
    ensures Ranked(Fork(g, weight), r + [x])
  {
    RankBlock(g, weight, r, x);
    RankLink(AddBlock(g, weight), g.top, g.Size(), r + [x]);
  }

  /** `r'` ranks the new blocks strictly between lo and hi and leaves the others as they were. */
  ghost predicate RanksBetween(g: Cfg, g': Cfg, r: seq<real>, r': seq<real>, lo: real, hi: real)
    requires g.Ok() && g'.Ok() && g.Size() <= g'.Size()
  {
    && Ranked(g', r') && |r| == g.Size() && r <= r'
    && forall b | g.Size() <= b < g'.Size() :: lo < r'[b] < hi
  }

  lemma {:induction false} EmitRanks(g: Cfg, s: Stmt, r: seq<real>, hi: real) returns (r': seq<real>)
    requires g.Ok() && g.Mirrored() && Ranked(g, r) && r[g.top] < hi
    ensures RanksBetween(g, Emit(g, s), r, r', r[g.top], hi)
    decreases s, 2
  {
    match s
    case Simple => r' := r;
    case Block(body) => r' := EmitAllRanks(g, body, r, hi);
    case If(_, _) => r' := IfRanks(g, s, r, hi);
    case Case(_) => r' := CaseRanks(g, s, r, hi);
  }

  /** The new top is a new block or the old top, so its rank is below `hi`. */
  lemma RankOfTop(g: Cfg, g': Cfg, r: seq<real>, r': seq<real>, hi: real)
    requires Grown(g, g') && NewOr(g, g'.top) && Ranked(g, r) && r[g.top] < hi
    requires RanksBetween(g, g', r, r', r[g.top], hi)
    ensures r[g.top] <= r'[g'.top] < hi
  {
  }

  lemma RankIfBlocks(g: Cfg, r: seq<real>, m: real, e: real)
    requires g.Ok() && g.Mirrored() && Ranked(g, r) && r[g.top] < m
    ensures Ranked(IfBlocks(g), r + [m, m, e])
  {
    RankFork(g, 1, r, m);
    RankFork(Fork(g, 1), 1, r + [m], m);
    RankBlock(Fork(Fork(g, 1), 1), 0, r + [m] + [m], e);
    assert r + [m] + [m] + [e] == r + [m, m, e];
  }

  lemma {:induction false} BranchesRanks(g1: Cfg, n: nat, s: Stmt, r1: seq<real>) returns (r3: seq<real>)
    requires g1.Ok() && g1.Mirrored() && g1.Size() == n + 3 && s.If? && Ranked(g1, r1)
    requires r1[n] == r1[n + 1] < r1[n + 2]
    ensures RanksBetween(g1, Branches(g1, n, s), r1, r3, r1[n], r1[n + 2])
    decreases s, 0
  {
    var g2 := EmitArm(g1, n, s.thn, n + 2);
    ArmKeeps(g1, n, s.thn, n + 2);
    var r2 := ArmRanks(g1, n, s.thn, n + 2, r1);
    assert r2[n + 1] == r1[n + 1] && r2[n + 2] == r1[n + 2];
    r3 := ArmRanks(g2, n + 1, s.els, n + 2, r2);
    assert forall b | 0 <= b < g2.Size() :: r3[b] == r2[b];
  }

  lemma {:induction false} IfRanks(g: Cfg, s: Stmt, r: seq<real>, hi: real) returns (r': seq<real>)
    requires g.Ok() && g.Mirrored() && s.If? && Ranked(g, r) && r[g.top] < hi
    ensures RanksBetween(g, Emit(g, s), r, r', r[g.top], hi)
    decreases s, 1
  {
    var n, lo, g1 := g.Size(), r[g.top], IfBlocks(g);
    var e := (lo + hi) / 2.0;
    var m := (lo + e) / 2.0;
    RankIfBlocks(g, r, m, e);
    assert g1.Mirrored() by {
      TwoForksGrow(g);
    }
    r' := BranchesRanks(g1, n, s, r + [m, m, e]);
    assert forall b | 0 <= b < n + 3 :: r'[b] == (r + [m, m, e])[b];
    assert Ranked(Enter(Branches(g1, n, s), n + 2), r');
  }

  lemma {:induction false} CaseRanks(g: Cfg, s: Stmt, r: seq<real>, hi: real) returns (r': seq<real>)
    requires g.Ok() && g.Mirrored() && s.Case? && Ranked(g, r) && r[g.top] < hi
    ensures RanksBetween(g, Emit(g, s), r, r', r[g.top], hi)
    decreases s, 1
  {
    var n, e := g.Size(), (r[g.top] + hi) / 2.0;
    RankBlock(g, 0, r, e);
    GrownByBlock(g, g, 0);
    var g1 := EmitArms(AddBlock(g, 0), s.arms, false, g.top, n);
    EmitArmsKeep(AddBlock(g, 0), s.arms, false, g.top, n);
    var r1 := EmitArmsRanks(AddBlock(g, 0), s.arms, false, g.top, n, r + [e]);
    assert forall b | 0 <= b < n + 1 :: r1[b] == (r + [e])[b];
    r' := EmitArmsRanks(g1, s.arms, true, g.top, n, r1);
    assert forall b | 0 <= b < g1.Size() :: r'[b] == r1[b];
  }

  lemma {:induction false} EmitAllRanks(g: Cfg, body: seq<Stmt>, r: seq<real>, hi: real) returns (r': seq<real>)
    requires g.Ok() && g.Mirrored() && Ranked(g, r) && r[g.top] < hi
    ensures RanksBetween(g, EmitAll(g, body), r, r', r[g.top], hi)
    decreases body
  {
    if body == [] {
      r' := r;
    } else {
      var front := body[..|body| - 1];
      EmitAllGrow(g, front);
      var r1 := EmitAllRanks(g, front, r, hi);
      var g1 := EmitAll(g, front);
      RankOfTop(g, g1, r, r1, hi);
      r' := EmitRanks(g1, body[|body| - 1], r1, hi);
      assert forall b | 0 <= b < g1.Size() :: r'[b] == r1[b];
    }
  }

  lemma {:induction false} ArmRanks(g: Cfg, b: nat, body: Option<Stmt>, exit: nat, r: seq<real>) returns (r': seq<real>)
    requires g.Ok() && g.Mirrored() && b < g.Size() && exit < g.Size() && Ranked(g, r) && r[b] < r[exit]
    ensures RanksBetween(g, EmitArm(g, b, body, exit), r, r', r[b], r[exit])
    decreases body
  {
    assert Enter(g, b).Mirrored() && Ranked(Enter(g, b), r);
    match body
    case None =>
      r' := r;
      RankLink(Enter(g, b), b, exit, r);
    case Some(s) =>
      r' := EmitRanks(Enter(g, b), s, r, r[exit]);
      var inner := Emit(Enter(g, b), s);
      EmitGrows(Enter(g, b), s);
      RankOfTop(Enter(g, b), inner, r, r', r[exit]);
      assert r'[exit] == r[exit];
      RankLink(inner, inner.top, exit, r');
  }

  lemma {:induction false} EmitArmsRanks(g: Cfg, arms: seq<Arm>, default: bool, start: nat, exit: nat, r: seq<real>)
    returns (r': seq<real>)
    requires g.Ok() && g.Mirrored() && start < g.Size() && exit < g.Size() && Ranked(g, r) && r[start] < r[exit]
    ensures RanksBetween(g, EmitArms(g, arms, default, start, exit), r, r', r[start], r[exit])
    decreases arms
  {
    if arms == [] {
      r' := r;
    } else {
      var front := arms[..|arms| - 1];
      var g1 := EmitArms(g, front, default, start, exit);
      EmitArmsKeep(g, front, default, start, exit);
      var r1 := EmitArmsRanks(g, front, default, start, exit, r);
      assert r1[start] == r[start] && r1[exit] == r[exit];
      r' := CaseArmRanks(g1, arms[|arms| - 1], default, start, exit, r1);
      assert forall b | 0 <= b < g1.Size() :: r'[b] == r1[b];
    }
  }

  lemma {:induction false} CaseArmRanks(g: Cfg, arm: Arm, default: bool, start: nat, exit: nat, r: seq<real>)
    returns (r': seq<real>)
    requires g.Ok() && g.Mirrored() && start < g.Size() && exit < g.Size() && Ranked(g, r) && r[start] < r[exit]
    ensures RanksBetween(g, EmitCaseArm(g, arm, default, start, exit), r, r', r[start], r[exit])
    decreases arm
  {
    if arm.isDefault == default {
      var x, w := (r[start] + r[exit]) / 2.0, if default then 0 else 1;
      assert Enter(g, start).Mirrored() && Ranked(Enter(g, start), r);
      RankFork(Enter(g, start), w, r, x);
      var g1 := Fork(Enter(g, start), w);
      assert g1.Mirrored();
      r' := ArmRanks(g1, g.Size(), arm.body, exit, r + [x]);
      assert forall b | 0 <= b <= g.Size() :: r'[b] == (r + [x])[b];
    } else {
      r' := r;
    }
  }

  lemma {:induction false} RankGrows(g: Cfg, r: seq<real>, p: seq<nat>, from: nat, to: nat)
    requires g.Ok() && g.Mirrored() && Ranked(g, r) && Path(g, p, from, to) && |p| > 1
    ensures r[from] < r[to]
  {
    var u, front := p[|p| - 2], p[..|p| - 1];
    assert p[|p| - 1] in g.succs[u];
    assert u in g.preds[to];
    if |front| > 1 {
      RankGrows(g, r, front, from, u);
    }
  }

  /** The built graph has no cycle. */
  lemma Acyclic(s: Stmt)
    ensures var g := Emit(Entry(), s); forall p, b | Path(g, p, b, b) :: |p| == 1
  {
    var g := Emit(Entry(), s);
    EmitGrows(Entry(), s);
    var r := EmitRanks(Entry(), s, [0.0], 1.0);
    forall p, b | Path(g, p, b, b) ensures |p| == 1 {
      if |p| > 1 {
        RankGrows(g, r, p, b, b);
      }
    }
  }

  // ----- every block lies between the entry and the exit -----

  ghost predicate Reach(g: Cfg, u: nat, v: nat)
    requires g.Ok()
  {
    exists p :: Path(g, p, u, v)
  }

  /** Block x is on a way from u to v. */
  ghost predicate Between(g: Cfg, u: nat, x: nat, v: nat)
    requires g.Ok()
  {
    Reach(g, u, x) && Reach(g, x, v)
  }

  lemma ReachSelf(g: Cfg, u: nat)
    requires g.Ok() && u < g.Size()
    ensures Reach(g, u, u)
  {
    assert Path(g, [u], u, u);
  }

  lemma ReachStep(g: Cfg, u: nat, v: nat, w: nat)
    requires g.Ok() && Reach(g, u, v) && v < g.Size() && w in g.succs[v]
    ensures Reach(g, u, w)
  {
    var p :| Path(g, p, u, v);
    assert Path(g, p + [w], u, w);
  }

  lemma ReachEdge(g: Cfg, u: nat, v: nat)
    requires g.Ok() && u < g.Size() && v in g.succs[u]
    ensures Reach(g, u, v)
  {
    ReachSelf(g, u);
    ReachStep(g, u, u, v);
  }

  lemma ReachTrans(g: Cfg, u: nat, v: nat, w: nat)
    requires g.Ok() && Reach(g, u, v) && Reach(g, v, w)
    ensures Reach(g, u, w)
  {
    var p :| Path(g, p, u, v);
    var q :| Path(g, q, v, w);
    JoinedPath(g, p, q, u, v, w);
  }

  /** Links are never removed, so ways stay open. */
  lemma ReachKeeps(g: Cfg, g': Cfg, exit: Option<nat>, u: nat, v: nat)
    requires Keeps(g, g', exit) && Reach(g, u, v)
    ensures Reach(g', u, v)
  {
    var p :| Path(g, p, u, v);
    assert Path(g', p, u, v);
  }

  /** All blocks numbered from `from` on are on a way from u to v. */
  ghost predicate AllBetween(g: Cfg, from: nat, u: nat, v: nat)
    requires g.Ok()
  {
    forall x | from <= x < g.Size() :: Between(g, u, x, v)
  }

  lemma BetweenKeeps(g: Cfg, g': Cfg, exit: Option<nat>, u: nat, x: nat, v: nat)
    requires Keeps(g, g', exit) && Between(g, u, x, v)
    ensures Between(g', u, x, v)
  {
    ReachKeeps(g, g', exit, u, x);
    ReachKeeps(g, g', exit, x, v);
  }

  lemma BetweenWider(g: Cfg, u: nat, u': nat, x: nat, v': nat, v: nat)
    requires g.Ok() && Reach(g, u, u') && Between(g, u', x, v') && Reach(g, v', v)
    ensures Between(g, u, x, v)
  {
    ReachTrans(g, u, u', x);
    ReachTrans(g, x, v', v);
  }

  lemma {:induction false} EmitReaches(g: Cfg, s: Stmt)
    requires g.Ok() && g.Mirrored() && NoEmptyCase(s)
    ensures var g' := Emit(g, s); Reach(g', g.top, g'.top) && AllBetween(g', g.Size(), g.top, g'.top)
    decreases s, 2
  {
    match s
    case Simple => ReachSelf(g, g.top);
    case Block(body) => EmitAllReach(g, body);
    case If(_, _) =>
      IfReaches(g, s);
      EnterReaches(Branches(IfBlocks(g), g.Size(), s), g.Size(), g.top, g.Size() + 2);
    case Case(_) =>
      CaseReaches(g, s);
      EnterReaches(AllArms(g, s.arms), g.Size(), g.top, g.Size());
  }

  lemma {:induction false} EmitAllReach(g: Cfg, body: seq<Stmt>)
    requires g.Ok() && g.Mirrored() && forall k | 0 <= k < |body| :: NoEmptyCase(body[k])
    ensures var g' := EmitAll(g, body); Reach(g', g.top, g'.top) && AllBetween(g', g.Size(), g.top, g'.top)
    decreases body
  {
    if body == [] {
      ReachSelf(g, g.top);
    } else {
      var front, last := body[..|body| - 1], body[|body| - 1];
      EmitAllGrow(g, front);
      EmitAllReach(g, front);
      var g1, g2 := EmitAll(g, front), EmitAll(g, body);
      KeepsByEmit(g1, last);
      EmitReaches(g1, last);
      ReachKeeps(g1, g2, None, g.top, g1.top);
      ReachTrans(g2, g.top, g1.top, g2.top);
      ReachSelf(g2, g.top);
      ReachSelf(g2, g2.top);
      forall x | g.Size() <= x < g2.Size() ensures Between(g2, g.top, x, g2.top) {
        if x < g1.Size() {
          BetweenKeeps(g1, g2, None, g.top, x, g1.top);
          BetweenWider(g2, g.top, g.top, x, g1.top, g2.top);
        } else {
          BetweenWider(g2, g.top, g1.top, x, g2.top, g2.top);
        }
      }
    }
  }

  /** Through a branch: its block leads to the exit, and whatever it adds lies in between. */
  lemma {:induction false} ArmReaches(g: Cfg, b: nat, body: Option<Stmt>, exit: nat)
    requires g.Ok() && g.Mirrored() && b < g.Size() && exit < g.Size() && (body.Some? ==> NoEmptyCase(body.value))
    ensures var g' := EmitArm(g, b, body, exit); Reach(g', b, exit) && AllBetween(g', g.Size(), b, exit)
    decreases body
  {
    assert Enter(g, b).Mirrored();
    match body
    case None =>
      ReachEdge(EmitArm(g, b, body, exit), b, exit);
    case Some(s) =>
      var inner, g' := Emit(Enter(g, b), s), EmitArm(g, b, body, exit);
      EmitReaches(Enter(g, b), s);
      JoinReaches(inner, g.Size(), b, exit);
  }

  lemma JoinReaches(g: Cfg, from: nat, u: nat, exit: nat)
    requires g.Ok() && exit < g.Size() && Reach(g, u, g.top) && AllBetween(g, from, u, g.top)
    ensures Reach(Join(g, exit), u, exit) && AllBetween(Join(g, exit), from, u, exit)
  {
    var g' := Join(g, exit);
    assert Keeps(g, g', Some(exit));
    ReachEdge(g', g.top, exit);
    ReachKeeps(g, g', Some(exit), u, g.top);
    ReachTrans(g', u, g.top, exit);
    forall x | from <= x < g'.Size() ensures Between(g', u, x, exit) {
      BetweenKeeps(g, g', Some(exit), u, x, g.top);
      ReachTrans(g', x, g.top, exit);
    }
  }

  /** Block x lies in one of the two branches of an if. */
  ghost predicate InBranch(g: Cfg, n: nat, x: nat)
    requires g.Ok()
  {
    Between(g, n, x, n + 2) || Between(g, n + 1, x, n + 2)
  }

  lemma {:induction false} BranchesReach(g1: Cfg, n: nat, s: Stmt)
    requires g1.Ok() && g1.Mirrored() && g1.Size() == n + 3 && s.If? && NoEmptyCase(s)
    ensures var g3 := Branches(g1, n, s);
            && Reach(g3, n, n + 2) && Reach(g3, n + 1, n + 2)
            && forall x | n + 3 <= x < g3.Size() :: InBranch(g3, n, x)
    decreases s, 0
  {
    var g2, g3 := EmitArm(g1, n, s.thn, n + 2), Branches(g1, n, s);
    ArmKeeps(g1, n, s.thn, n + 2);
    ArmReaches(g1, n, s.thn, n + 2);
    ArmKeeps(g2, n + 1, s.els, n + 2);
    ArmReaches(g2, n + 1, s.els, n + 2);
    SecondBranch(g2, g3, n, n + 3);
  }

  /** The second branch leaves the ways through the first one open. */
  lemma SecondBranch(g2: Cfg, g3: Cfg, n: nat, from: nat)
    requires Keeps(g2, g3, Some(n + 2)) && Reach(g2, n, n + 2)
    requires AllBetween(g2, from, n, n + 2) && AllBetween(g3, g2.Size(), n + 1, n + 2)
    ensures Reach(g3, n, n + 2) && forall x | from <= x < g3.Size() :: InBranch(g3, n, x)
  {
    ReachKeeps(g2, g3, Some(n + 2), n, n + 2);
    forall x | from <= x < g3.Size() ensures InBranch(g3, n, x) {
      if x < g2.Size() {
        BetweenKeeps(g2, g3, Some(n + 2), n, x, n + 2);
      }
    }
  }

  /** The links from the block before an if to its branches open the ways through it. */
  lemma IfOpensBranches(g: Cfg, g3: Cfg)
    requires g.Ok() && g.Mirrored() && Keeps(IfBlocks(g), g3, Some(g.Size() + 2))
    ensures Reach(g3, g.top, g.Size()) && Reach(g3, g.top, g.Size() + 1)
  {
    IfBlocksShape(g);
    assert IfBlocks(g).succs[g.top] <= g3.succs[g.top];
    ReachEdge(g3, g.top, g.Size());
    ReachEdge(g3, g.top, g.Size() + 1);
  }

  lemma BranchesAreBetween(g: Cfg, n: nat, start: nat)
    requires g.Ok() && n + 3 <= g.Size()
    requires Reach(g, start, n) && Reach(g, start, n + 1) && Reach(g, n, n + 2) && Reach(g, n + 1, n + 2)
    requires forall x | n + 3 <= x < g.Size() :: InBranch(g, n, x)
    ensures Reach(g, start, n + 2) && AllBetween(g, n, start, n + 2)
  {
    var e := n + 2;
    ReachTrans(g, start, n, e);
    ReachSelf(g, e);
    forall x | n <= x < g.Size() ensures Between(g, start, x, e) {
      if x >= n + 3 {
        assert InBranch(g, n, x);
        var b := if Between(g, n, x, e) then n else n + 1;
        BetweenWider(g, start, b, x, e, e);
      }
    }
  }

  lemma {:induction false} IfReaches(g: Cfg, s: Stmt)
    requires g.Ok() && g.Mirrored() && s.If? && NoEmptyCase(s)
    ensures var g3, e := Branches(IfBlocks(g), g.Size(), s), g.Size() + 2;
            Reach(g3, g.top, e) && AllBetween(g3, g.Size(), g.top, e)
    decreases s, 1
  {
    var n, g1 := g.Size(), IfBlocks(g);
    assert g1.Mirrored() by {
      IfBlocksShape(g);
    }
    BranchesReach(g1, n, s);
    BranchesKeep(g1, n, s);
    IfOpensBranches(g, Branches(g1, n, s));
    BranchesAreBetween(Branches(g1, n, s), n, g.top);
  }

  /** Which block is current does not matter for ways. */
  lemma EnterReaches(g: Cfg, from: nat, u: nat, b: nat)
    requires g.Ok() && b < g.Size() && Reach(g, u, b) && AllBetween(g, from, u, b)
    ensures Reach(Enter(g, b), u, b) && AllBetween(Enter(g, b), from, u, b)
  {
    var g' := Enter(g, b);
    ReachKeeps(g, g', None, u, b);
    forall x | from <= x < g'.Size() ensures Between(g', u, x, b) {
      BetweenKeeps(g, g', None, u, x, b);
    }
  }

  lemma {:induction false} CaseArmReaches(g: Cfg, arm: Arm, default: bool, start: nat, exit: nat)
    requires g.Ok() && g.Mirrored() && start < g.Size() && exit < g.Size()
    requires arm.body.Some? ==> NoEmptyCase(arm.body.value)
    ensures var g' := EmitCaseArm(g, arm, default, start, exit);
            && AllBetween(g', g.Size(), start, exit)
            && (arm.isDefault == default ==> Reach(g', start, exit))
    decreases arm
  {
    if arm.isDefault == default {
      var b, g1 := g.Size(), Fork(Enter(g, start), if default then 0 else 1);
      assert Enter(g, start).Mirrored();
      ArmReaches(g1, b, arm.body, exit);
      ArmKeeps(g1, b, arm.body, exit);
      BranchIsBetween(EmitArm(g1, b, arm.body, exit), b, start, exit);
    }
  }

  /** A branch entered from `start` lies between `start` and its exit. */
  lemma BranchIsBetween(g: Cfg, b: nat, start: nat, exit: nat)
    requires g.Ok() && start < g.Size() && exit < g.Size() && b in g.succs[start]
    requires Reach(g, b, exit) && AllBetween(g, b + 1, b, exit)
    ensures Reach(g, start, exit) && AllBetween(g, b, start, exit)
  {
    ReachEdge(g, start, b);
    ReachTrans(g, start, b, exit);
    ReachSelf(g, exit);
    forall x | b <= x < g.Size() ensures Between(g, start, x, exit) {
      if x > b {
        BetweenWider(g, start, b, x, exit, exit);
      }
    }
  }

  predicate HasArm(arms: seq<Arm>, default: bool) {
    exists k | 0 <= k < |arms| :: arms[k].isDefault == default
  }

  lemma {:induction false} EmitArmsReach(g: Cfg, arms: seq<Arm>, default: bool, start: nat, exit: nat)
    requires g.Ok() && g.Mirrored() && start < g.Size() && exit < g.Size()
    requires forall k | 0 <= k < |arms| :: arms[k].body.Some? ==> NoEmptyCase(arms[k].body.value)
    ensures var g' := EmitArms(g, arms, default, start, exit);
            AllBetween(g', g.Size(), start, exit) && (HasArm(arms, default) ==> Reach(g', start, exit))
    decreases arms, 0
  {
    if arms != [] {
      var front, last := arms[..|arms| - 1], arms[|arms| - 1];
      var g1 := EmitArms(g, front, default, start, exit);
      EmitArmsKeep(g, front, default, start, exit);
      EmitArmsReach(g, front, default, start, exit);
      CaseArmKeeps(g1, last, default, start, exit);
      CaseArmReaches(g1, last, default, start, exit);
      OneMoreArm(g1, EmitCaseArm(g1, last, default, start, exit), g.Size(), start, exit);
      if HasArm(arms, default) && last.isDefault != default {
        var k :| 0 <= k < |arms| && arms[k].isDefault == default;
        assert front[k].isDefault == default;
      }
    }
  }

  lemma OneMoreArm(g: Cfg, g': Cfg, from: nat, start: nat, exit: nat)
    requires Keeps(g, g', Some(exit)) && AllBetween(g, from, start, exit) && AllBetween(g', g.Size(), start, exit)
    ensures AllBetween(g', from, start, exit) && (Reach(g, start, exit) ==> Reach(g', start, exit))
  {
    if Reach(g, start, exit) {
      ReachKeeps(g, g', Some(exit), start, exit);
    }
    forall x | from <= x < g'.Size() ensures Between(g', start, x, exit) {
      if x < g.Size() {
        BetweenKeeps(g, g', Some(exit), start, x, exit);
      }
    }
  }

  /** The graph when all arms of a case have been emitted, the default one last. */
  function AllArms(g: Cfg, arms: seq<Arm>): (g': Cfg)
    requires g.Ok()
    ensures g'.Ok() && g'.Size() > g.Size()
  {
    EmitArms(EmitArms(AddBlock(g, 0), arms, false, g.top, g.Size()), arms, true, g.top, g.Size())
  }

  /** One pass over the arms after the other: all arms lie between the start and the exit. */
  lemma {:induction false} ArmsReach(g0: Cfg, arms: seq<Arm>, start: nat, n: nat)
    requires g0.Ok() && g0.Mirrored() && g0.Size() == n + 1 && start < g0.Size() && arms != []
    requires forall k | 0 <= k < |arms| :: arms[k].body.Some? ==> NoEmptyCase(arms[k].body.value)
    ensures var g2 := EmitArms(EmitArms(g0, arms, false, start, n), arms, true, start, n);
            Reach(g2, start, n) && AllBetween(g2, n + 1, start, n)
    decreases arms, 1
  {
    var g1 := EmitArms(g0, arms, false, start, n);
    EmitArmsKeep(g0, arms, false, start, n);
    EmitArmsReach(g0, arms, false, start, n);
    EmitArmsKeep(g1, arms, true, start, n);
    EmitArmsReach(g1, arms, true, start, n);
    OneMoreArm(g1, EmitArms(g1, arms, true, start, n), n + 1, start, n);
    assert HasArm(arms, arms[0].isDefault);
  }

  lemma ExitIsBetween(g: Cfg, n: nat, start: nat)
    requires g.Ok() && n < g.Size() && Reach(g, start, n) && AllBetween(g, n + 1, start, n)
    ensures AllBetween(g, n, start, n)
  {
    ReachSelf(g, n);
  }

  lemma {:induction false} CaseReaches(g: Cfg, s: Stmt)
    requires g.Ok() && g.Mirrored() && s.Case? && NoEmptyCase(s)
    ensures var g2, n := AllArms(g, s.arms), g.Size(); Reach(g2, g.top, n) && AllBetween(g2, n, g.top, n)
    decreases s, 1
  {
    assert AddBlock(g, 0).Mirrored() by {
      GrownByBlock(g, g, 0);
    }
    ArmsReach(AddBlock(g, 0), s.arms, g.top, g.Size());
    ExitIsBetween(AllArms(g, s.arms), g.Size(), g.top);
  }

  /** Block b lies on a path from the entry to the current block. */
  ghost predicate OnPath(g: Cfg, b: nat)
    requires g.Ok()
  {
    exists p :: Path(g, p, 0, g.top) && b in p
  }

  ghost predicate AllOnPath(g: Cfg)
    requires g.Ok()
  {
    forall b | 0 <= b < g.Size() :: OnPath(g, b)
  }

  /** Every block lies on a path from the entry to the exit. */
  lemma EveryBlockOnAPath(s: Stmt)
    requires NoEmptyCase(s)
    ensures AllOnPath(Emit(Entry(), s))
  {
    var g := Emit(Entry(), s);
    EmitReaches(Entry(), s);
    ReachSelf(g, 0);
    forall b | 0 <= b < g.Size() ensures OnPath(g, b) {
      assert b > 0 ==> Between(g, 0, b, g.top);
      var p :| Path(g, p, 0, b);
      var q :| Path(g, q, b, g.top);
      JoinedPath(g, p, q, 0, b, g.top);
      assert (p + q[1..])[|p| - 1] == b;
    }
  }

  lemma JoinedPath(g: Cfg, p: seq<nat>, q: seq<nat>, u: nat, v: nat, w: nat)
    requires g.Ok() && Path(g, p, u, v) && Path(g, q, v, w)
    ensures Path(g, p + q[1..], u, w)
  {
    var pq := p + q[1..];
    forall a, b | 0 <= a && b == a + 1 < |pq| ensures pq[b] in g.succs[pq[a]] {
      if b >= |p| {
        assert q[b - |p| + 1] in g.succs[q[b - |p|]];
      }
    }
  }
}
