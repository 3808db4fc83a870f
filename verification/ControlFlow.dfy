/** The control-flow graph built from a statement tree of ifs and cases, and its shape. */
module ControlFlow {
  import opened Basics

  /** An absent statement is an empty branch; only an `if` has those. */
  datatype Arm = Arm(isDefault: bool, body: Option<Stmt>)

  datatype Stmt =
    | Simple
    | Block(body: seq<Stmt>)
    | If(thn: Option<Stmt>, els: Option<Stmt>)
    | Case(arms: seq<Arm>)

  /** Every case has an arm. */
  predicate NoEmptyCase(s: Stmt) {
    match s
    case Simple => true
    case Block(body) => forall k | 0 <= k < |body| :: NoEmptyCase(body[k])
    case If(t, f) => (t.Some? ==> NoEmptyCase(t.value)) && (f.Some? ==> NoEmptyCase(f.value))
    case Case(arms) =>
      arms != [] && forall k | 0 <= k < |arms| :: arms[k].body.Some? ==> NoEmptyCase(arms[k].body.value)
  }

  predicate OneDefault(arms: seq<Arm>) {
    forall a, b | 0 <= a < b < |arms| :: !(arms[a].isDefault && arms[b].isDefault)
  }

  /** Basic blocks by id, and the block statements are being added to. */
  datatype Cfg = Cfg(preds: seq<set<nat>>, succs: seq<set<nat>>, idom: seq<Option<nat>>, weight: seq<nat>, top: nat) {
    predicate Ok() {
      && |preds| == |succs| == |idom| == |weight| && top < |preds|
      && (forall b, u | 0 <= b < |preds| && u in preds[b] :: u < |preds|)
      && (forall b, v | 0 <= b < |preds| && v in succs[b] :: v < |preds|)
    }

    /** Every link is recorded at both of its ends. */
    ghost predicate Mirrored()
      requires Ok()
    {
      forall u, v | 0 <= u < |preds| && 0 <= v < |preds| :: u in preds[v] <==> v in succs[u]
    }

    function Size(): nat {
      |preds|
    }
  }

  function Entry(): (g: Cfg)
    ensures g.Ok() && g.Mirrored()
  {
    Cfg([{}], [{}], [None], [0], 0)
  }

  function AddBlock(g: Cfg, weight: nat): (g': Cfg)
    requires g.Ok()
    ensures g'.Ok()
  {
    Cfg(g.preds + [{}], g.succs + [{}], g.idom + [Some(g.top)], g.weight + [weight], g.top)
  }

  function Link(g: Cfg, u: nat, v: nat): (g': Cfg)
    requires g.Ok() && u < g.Size() && v < g.Size()
    ensures g'.Ok()
  {
    g.(preds := g.preds[v := g.preds[v] + {u}], succs := g.succs[u := g.succs[u] + {v}])
  }

  /** A new block reached from the current one, which dominates it. */
  function Fork(g: Cfg, weight: nat): (g': Cfg)
    requires g.Ok()
    ensures g'.Ok() && g'.Size() == g.Size() + 1
  {
    Link(AddBlock(g, weight), g.top, g.Size())
  }

  function Enter(g: Cfg, b: nat): (g': Cfg)
    requires g.Ok() && b < g.Size()
    ensures g'.Ok()
  {
    g.(top := b)
  }

  /** The current block leads to `exit`. */
  function Join(g: Cfg, exit: nat): (g': Cfg)
    requires g.Ok() && exit < g.Size()
    ensures g'.Ok() && g'.Size() == g.Size()
  {
    Link(g, g.top, exit)
  }

  /** The two branch blocks and the exit of an if, before its branches are emitted. */
  function IfBlocks(g: Cfg): (g': Cfg)
    requires g.Ok()
    ensures g'.Ok() && g'.Size() == g.Size() + 3
  {
    AddBlock(Fork(Fork(g, 1), 1), 0)
  }

  /** Older blocks keep their dominators, their successors, and, but for `exit`, their incoming links. */
  ghost predicate Keeps(g: Cfg, g': Cfg, exit: Option<nat>) {
    && g.Ok() && g'.Ok() && g.Size() <= g'.Size()
    && (forall b | 0 <= b < g.Size() :: g.idom[b] == g'.idom[b] && g.succs[b] <= g'.succs[b])
    && (forall b | 0 <= b < g.Size() && Some(b) != exit :: g.preds[b] == g'.preds[b])
  }

  /** The graph after a statement. */
  function Emit(g: Cfg, s: Stmt): (g': Cfg)
    requires g.Ok()
    ensures g'.Ok() && g'.Size() >= g.Size()
    decreases s, 1
  {
    match s
    case Simple => g
    case Block(body) => EmitAll(g, body)
    case If(_, _) =>
      Enter(Branches(IfBlocks(g), g.Size(), s), g.Size() + 2)
    case Case(arms) =>
      var n := g.Size();
      var g1 := EmitArms(AddBlock(g, 0), arms, false, g.top, n);
      var g2 := EmitArms(g1, arms, true, g.top, n);
      Enter(g2, n)
  }

  /** Both branches of an if, whose blocks are n and n + 1 and whose exit is n + 2. */
  function Branches(g: Cfg, n: nat, s: Stmt): (g': Cfg)
    requires g.Ok() && g.Size() == n + 3 && s.If?
    ensures g'.Ok() && g'.Size() >= g.Size()
    decreases s, 0
  {
    EmitArm(EmitArm(g, n, s.thn, n + 2), n + 1, s.els, n + 2)
  }

  /** A branch: its block is entered, its statement emitted, and its end leads to `exit`. */
  function EmitArm(g: Cfg, b: nat, body: Option<Stmt>, exit: nat): (g': Cfg)
    requires g.Ok() && b < g.Size() && exit < g.Size()
    ensures g'.Ok() && g'.Size() >= g.Size()
    decreases body
  {
    match body
    case None => Join(Enter(g, b), exit)
    case Some(s) => Join(Emit(Enter(g, b), s), exit)
  }

  function EmitAll(g: Cfg, body: seq<Stmt>): (g': Cfg)
    requires g.Ok()
    ensures g'.Ok() && g'.Size() >= g.Size()
    decreases body
  {
    if body == [] then g
    else Emit(EmitAll(g, body[..|body| - 1]), body[|body| - 1])
  }

  /** The arms of a case that are, or are not, the default one; each starts at `start` and ends at `exit`. */
  function EmitArms(g: Cfg, arms: seq<Arm>, default: bool, start: nat, exit: nat): (g': Cfg)
    requires g.Ok() && start < g.Size() && exit < g.Size()
    ensures g'.Ok() && g'.Size() >= g.Size()
    decreases arms
  {
    if arms == [] then g
    else
      var g0 := EmitArms(g, arms[..|arms| - 1], default, start, exit);
      EmitCaseArm(g0, arms[|arms| - 1], default, start, exit)
  }

  function EmitCaseArm(g: Cfg, arm: Arm, default: bool, start: nat, exit: nat): (g': Cfg)
    requires g.Ok() && start < g.Size() && exit < g.Size()
    ensures g'.Ok() && g'.Size() >= g.Size()
    decreases arm
  {
    if arm.isDefault == default
    then EmitArm(Fork(Enter(g, start), if default then 0 else 1), g.Size(), arm.body, exit)
    else g
  }

  // ----- what a statement may change -----

  /** From `g0` to `g`, where `g0.top` was the current block: older blocks keep their incoming links and
      dominators, only the current one gains successors, and new blocks are entered from new ones or from it. */
  ghost predicate Grown(g0: Cfg, g: Cfg) {
    && g0.Ok() && g.Ok() && g0.Size() <= g.Size() && g.Mirrored()
    && (forall b | 0 <= b < g0.Size() :: g.preds[b] == g0.preds[b] && g.idom[b] == g0.idom[b])
    && (forall b | 0 <= b < g0.Size() :: g0.succs[b] <= g.succs[b])
    && (forall b | g0.Size() <= b < g.Size() :: FromNewOr(g0, g.preds[b]))
    && (forall b | g0.Size() <= b < g.Size() :: g.idom[b].Some? && NewOr(g0, g.idom[b].value))
  }

  /** A new block, or the block that was current. */
  predicate NewOr(g0: Cfg, u: nat) {
    u >= g0.Size() || u == g0.top
  }

  predicate FromNewOr(g0: Cfg, us: set<nat>) {
    forall u | u in us :: NewOr(g0, u)
  }

  lemma GrownByBlock(g0: Cfg, g: Cfg, weight: nat)
    requires Grown(g0, g) && NewOr(g0, g.top)
    ensures Grown(g0, AddBlock(g, weight))
  {
  }

  lemma GrownByLink(g0: Cfg, g: Cfg, u: nat, v: nat)
    requires Grown(g0, g) && NewOr(g0, u) && u < g.Size() && g0.Size() <= v < g.Size()
    ensures Grown(g0, Link(g, u, v))
  {
  }

  lemma GrownByEnter(g0: Cfg, g: Cfg, b: nat)
    requires Grown(g0, g) && b < g.Size()
    ensures Grown(g0, Enter(g, b))
  {
    assert Enter(g, b).Mirrored() by {
      assert g.Mirrored();
    }
  }

  lemma GrownTwice(g0: Cfg, g: Cfg, g': Cfg)
    requires Grown(g0, g) && Grown(g, g') && NewOr(g0, g.top)
    ensures Grown(g0, g')
  {
    forall b | g0.Size() <= b < g'.Size()
      ensures FromNewOr(g0, g'.preds[b]) && g'.idom[b].Some? && NewOr(g0, g'.idom[b].value)
    {
      if b >= g.Size() {
        assert FromNewOr(g, g'.preds[b]);
      } else {
        assert FromNewOr(g0, g.preds[b]);
      }
    }
  }

  lemma GrownByFork(g0: Cfg, g: Cfg, weight: nat)
    requires Grown(g0, g) && NewOr(g0, g.top)
    ensures Grown(g0, Fork(g, weight))
  {
    GrownByBlock(g0, g, weight);
    GrownByLink(g0, AddBlock(g, weight), g.top, g.Size());
  }

  /** Every statement only grows the graph, and links are recorded at both ends throughout. */
  lemma {:induction false} EmitGrows(g: Cfg, s: Stmt)
    requires g.Ok() && g.Mirrored()
    ensures Grown(g, Emit(g, s)) && NewOr(g, Emit(g, s).top)
    decreases s, 1
  {
    match s
    case Simple =>
    case Block(body) => EmitAllGrow(g, body);
    case If(_, _) => IfGrows(g, s);
    case Case(_) => CaseGrows(g, s);
  }

  lemma {:induction false} IfGrows(g: Cfg, s: Stmt)
    requires g.Ok() && g.Mirrored() && s.If?
    ensures Grown(g, Branches(IfBlocks(g), g.Size(), s)) && Grown(g, Emit(g, s))
    decreases s, 0
  {
    var n := g.Size();
    TwoForksGrow(g);
    ArmGrows(g, IfBlocks(g), n, s.thn, n + 2);
    var g2 := EmitArm(IfBlocks(g), n, s.thn, n + 2);
    ArmGrows(g, g2, n + 1, s.els, n + 2);
    GrownByEnter(g, Branches(IfBlocks(g), n, s), n + 2);
  }

  lemma {:induction false} CaseGrows(g: Cfg, s: Stmt)
    requires g.Ok() && g.Mirrored() && s.Case?
    ensures Grown(g, Emit(g, s))
    decreases s, 0
  {
    var n := g.Size();
    GrownByBlock(g, g, 0);
    EmitArmsGrow(g, AddBlock(g, 0), s.arms, false, n);
    var g1 := EmitArms(AddBlock(g, 0), s.arms, false, g.top, n);
    EmitArmsGrow(g, g1, s.arms, true, n);
    GrownByEnter(g, EmitArms(g1, s.arms, true, g.top, n), n);
  }

  lemma TwoForksGrow(g: Cfg)
    requires g.Ok() && g.Mirrored()
    ensures Grown(g, IfBlocks(g))
  {
    GrownByFork(g, g, 1);
    GrownByFork(g, Fork(g, 1), 1);
    GrownByBlock(g, Fork(Fork(g, 1), 1), 0);
  }

  lemma {:induction false} ArmGrows(g0: Cfg, g: Cfg, b: nat, body: Option<Stmt>, exit: nat)
    requires Grown(g0, g) && g0.Size() <= b < g.Size() && g0.Size() <= exit < g.Size()
    ensures Grown(g0, EmitArm(g, b, body, exit))
    decreases body
  {
    GrownByEnter(g0, g, b);
    if body.Some? {
      var inner := Emit(Enter(g, b), body.value);
      EmitGrows(Enter(g, b), body.value);
      GrownTwice(g0, Enter(g, b), inner);
      GrownByLink(g0, inner, inner.top, exit);
    } else {
      GrownByLink(g0, Enter(g, b), b, exit);
    }
  }

  lemma {:induction false} EmitAllGrow(g: Cfg, body: seq<Stmt>)
    requires g.Ok() && g.Mirrored()
    ensures Grown(g, EmitAll(g, body)) && NewOr(g, EmitAll(g, body).top)
    decreases body
  {
    if body != [] {
      var front := body[..|body| - 1];
      EmitAllGrow(g, front);
      EmitGrows(EmitAll(g, front), body[|body| - 1]);
      GrownTwice(g, EmitAll(g, front), EmitAll(g, body));
    }
  }

  lemma {:induction false} EmitArmsGrow(g0: Cfg, g: Cfg, arms: seq<Arm>, default: bool, exit: nat)
    requires Grown(g0, g) && g0.Size() <= exit < g.Size()
    ensures Grown(g0, EmitArms(g, arms, default, g0.top, exit))
    decreases arms
  {
    if arms != [] {
      var front := arms[..|arms| - 1];
      EmitArmsGrow(g0, g, front, default, exit);
      CaseArmGrows(g0, EmitArms(g, front, default, g0.top, exit), arms[|arms| - 1], default, exit);
    }
  }

  lemma {:induction false} CaseArmGrows(g0: Cfg, g: Cfg, arm: Arm, default: bool, exit: nat)
    requires Grown(g0, g) && g0.Size() <= exit < g.Size()
    ensures Grown(g0, EmitCaseArm(g, arm, default, g0.top, exit))
    decreases arm
  {
    if arm.isDefault == default {
      var w := if default then 0 else 1;
      GrownByEnter(g0, g, g0.top);
      GrownByFork(g0, Enter(g, g0.top), w);
      ArmGrows(g0, Fork(Enter(g, g0.top), w), g.Size(), arm.body, exit);
    }
  }

  lemma KeepsByEmit(g: Cfg, s: Stmt)
    requires g.Ok() && g.Mirrored()
    ensures Keeps(g, Emit(g, s), None) && Emit(g, s).Mirrored()
  {
    EmitGrows(g, s);
  }

  /** A branch disturbs older blocks only by its link to `exit`. */
  lemma ArmKeeps(g: Cfg, b: nat, body: Option<Stmt>, exit: nat)
    requires g.Ok() && g.Mirrored() && b < g.Size() && exit < g.Size()
    ensures Keeps(g, EmitArm(g, b, body, exit), Some(exit)) && EmitArm(g, b, body, exit).Mirrored()
  {
    assert Enter(g, b).Mirrored();
    if body.Some? {
      KeepsByEmit(Enter(g, b), body.value);
    }
  }

  lemma CaseArmKeeps(g: Cfg, arm: Arm, default: bool, start: nat, exit: nat)
    requires g.Ok() && g.Mirrored() && start < g.Size() && exit < g.Size()
    ensures Keeps(g, EmitCaseArm(g, arm, default, start, exit), Some(exit))
    ensures EmitCaseArm(g, arm, default, start, exit).Mirrored()
  {
    if arm.isDefault == default {
      var g1 := Fork(Enter(g, start), if default then 0 else 1);
      assert Enter(g, start).Mirrored();
      ForkKeeps(Enter(g, start), if default then 0 else 1);
      ArmKeeps(g1, g.Size(), arm.body, exit);
      KeepsTwice(g, g1, EmitArm(g1, g.Size(), arm.body, exit), exit);
    }
  }

  lemma ForkKeeps(g: Cfg, weight: nat)
    requires g.Ok() && g.Mirrored()
    ensures Keeps(g, Fork(g, weight), None) && Fork(g, weight).Mirrored()
  {
  }

  lemma KeepsTwice(g: Cfg, g1: Cfg, g2: Cfg, exit: nat)
    requires Keeps(g, g1, None) && Keeps(g1, g2, Some(exit))
    ensures Keeps(g, g2, Some(exit))
  {
  }

  lemma {:induction false} EmitArmsKeep(g: Cfg, arms: seq<Arm>, default: bool, start: nat, exit: nat)
    requires g.Ok() && g.Mirrored() && start < g.Size() && exit < g.Size()
    ensures Keeps(g, EmitArms(g, arms, default, start, exit), Some(exit))
    ensures EmitArms(g, arms, default, start, exit).Mirrored()
  {
    if arms != [] {
      EmitArmsKeep(g, arms[..|arms| - 1], default, start, exit);
      CaseArmKeeps(EmitArms(g, arms[..|arms| - 1], default, start, exit), arms[|arms| - 1], default, start, exit);
    }
  }

  // ----- dominators -----

  /** The blocks lo..hi-1, b among them, can be entered from outside only from b's dominator. */
  ghost predicate Region(g: Cfg, b: nat, lo: nat, hi: nat)
    requires g.Ok()
  {
    && lo <= b < hi <= g.Size() && g.idom[b].Some? && !(lo <= g.idom[b].value < hi)
    && (forall v, u | lo <= v < hi && u in g.preds[v] :: lo <= u < hi || u == g.idom[b].value)
  }

  /** Block b has a region of blocks numbered from `from` on. */
  ghost predicate Guarded(g: Cfg, b: nat, from: nat)
    requires g.Ok()
  {
    exists lo, hi :: from <= lo && Region(g, b, lo, hi)
  }

  ghost predicate AllGuarded(g: Cfg, from: nat)
    requires g.Ok()
  {
    forall b | from <= b < g.Size() :: Guarded(g, b, from)
  }

  /** Guards survive changes that keep the incoming links of all blocks from `from` on. */
  lemma GuardSurvives(g: Cfg, g': Cfg, b: nat, from: nat, exit: Option<nat>)
    requires Keeps(g, g', exit) && Guarded(g, b, from) && (exit.Some? ==> exit.value < from)
    ensures Guarded(g', b, from)
  {
    var lo, hi :| from <= lo && Region(g, b, lo, hi);
    assert Region(g', b, lo, hi);
  }

  lemma GuardFromEarlier(g: Cfg, b: nat, from: nat, from': nat)
    requires g.Ok() && Guarded(g, b, from) && from' <= from
    ensures Guarded(g, b, from')
  {
    var lo, hi :| from <= lo && Region(g, b, lo, hi);
    assert from' <= lo && Region(g, b, lo, hi);
  }

  /** A block that is entered only from its dominator. */
  lemma GuardOfSingle(g: Cfg, b: nat, from: nat)
    requires g.Ok() && from <= b < g.Size() && g.idom[b].Some? && g.idom[b].value != b
    requires g.preds[b] <= {g.idom[b].value}
    ensures Guarded(g, b, from)
  {
    assert Region(g, b, b, b + 1);
  }

  /** The block where a statement ends, entered from anywhere in the statement. */
  lemma GuardOfExit(g0: Cfg, g: Cfg, b: nat)
    requires Grown(g0, g) && g0.Size() <= b < g.Size() && g.idom[b] == Some(g0.top)
    ensures Guarded(g, b, g0.Size())
  {
    forall v, u | g0.Size() <= v < g.Size() && u in g.preds[v] ensures g0.Size() <= u < g.Size() || u == g0.top {
      assert FromNewOr(g0, g.preds[v]);
    }
    assert Region(g, b, g0.Size(), g.Size());
  }

  lemma {:induction false} EmitGuards(g: Cfg, s: Stmt)
    requires g.Ok() && g.Mirrored()
    ensures AllGuarded(Emit(g, s), g.Size())
    decreases s, 2
  {
    match s
    case Simple =>
    case Block(body) => EmitAllGuard(g, body);
    case If(_, _) =>
      IfGuards(g, s);
      EnterKeepsGuards(Branches(IfBlocks(g), g.Size(), s), g.Size() + 2, g.Size());
    case Case(_) => CaseGuards(g, s);
  }

  lemma {:induction false} EmitAllGuard(g: Cfg, body: seq<Stmt>)
    requires g.Ok() && g.Mirrored()
    ensures AllGuarded(EmitAll(g, body), g.Size())
    decreases body
  {
    if body != [] {
      var front, last := body[..|body| - 1], body[|body| - 1];
      EmitAllGrow(g, front);
      EmitAllGuard(g, front);
      var g1, g2 := EmitAll(g, front), EmitAll(g, body);
      KeepsByEmit(g1, last);
      EmitGuards(g1, last);
      forall b | g.Size() <= b < g2.Size() ensures Guarded(g2, b, g.Size()) {
        if b < g1.Size() {
          GuardSurvives(g1, g2, b, g.Size(), None);
        } else {
          GuardFromEarlier(g2, b, g1.Size(), g.Size());
        }
      }
    }
  }

  /** What a branch adds is guarded: its only link to an older block leads to `exit`. */
  lemma {:induction false} ArmGuards(g: Cfg, b: nat, body: Option<Stmt>, exit: nat)
    requires g.Ok() && g.Mirrored() && b < g.Size() && exit < g.Size()
    ensures AllGuarded(EmitArm(g, b, body, exit), g.Size())
    decreases body
  {
    if body.Some? {
      assert Enter(g, b).Mirrored();
      EmitGuards(Enter(g, b), body.value);
      var inner, g' := Emit(Enter(g, b), body.value), EmitArm(g, b, body, exit);
      forall x | g.Size() <= x < g'.Size() ensures Guarded(g', x, g.Size()) {
        GuardSurvives(inner, g', x, g.Size(), Some(exit));
      }
    }
  }

  /** Adding a branch to a guarded part leaves it guarded. */
  lemma ArmKeepsGuards(g: Cfg, b: nat, body: Option<Stmt>, exit: nat, x: nat, from: nat)
    requires g.Ok() && g.Mirrored() && b < g.Size() && exit < from <= g.Size()
    requires from <= x < EmitArm(g, b, body, exit).Size()
    requires x < g.Size() ==> Guarded(g, x, from)
    requires AllGuarded(EmitArm(g, b, body, exit), g.Size())
    ensures Guarded(EmitArm(g, b, body, exit), x, from)
  {
    if x < g.Size() {
      ArmKeeps(g, b, body, exit);
      GuardSurvives(g, EmitArm(g, b, body, exit), x, from, Some(exit));
    } else {
      GuardFromEarlier(EmitArm(g, b, body, exit), x, g.Size(), from);
    }
  }

  lemma ArmKeepsAllGuards(g: Cfg, b: nat, body: Option<Stmt>, exit: nat, from: nat)
    requires g.Ok() && g.Mirrored() && b < g.Size() && exit < from <= g.Size()
    requires AllGuarded(g, from) && AllGuarded(EmitArm(g, b, body, exit), g.Size())
    ensures AllGuarded(EmitArm(g, b, body, exit), from)
  {
    forall x | from <= x < EmitArm(g, b, body, exit).Size() ensures Guarded(EmitArm(g, b, body, exit), x, from) {
      ArmKeepsGuards(g, b, body, exit, x, from);
    }
  }

  lemma IfBlocksShape(g: Cfg)
    requires g.Ok() && g.Mirrored()
    ensures var g1, n := IfBlocks(g), g.Size();
            && Grown(g, g1) && g1.top == g.top && Keeps(g, g1, None)
            && g1.preds[n] == {g.top} && g1.preds[n + 1] == {g.top}
            && {n, n + 1} <= g1.succs[g.top]
            && g1.idom[n] == g1.idom[n + 1] == g1.idom[n + 2] == Some(g.top)
  {
    TwoForksGrow(g);
  }

  lemma BranchesKeep(g1: Cfg, n: nat, s: Stmt)
    requires g1.Ok() && g1.Mirrored() && g1.Size() == n + 3 && s.If?
    ensures Keeps(g1, Branches(g1, n, s), Some(n + 2))
  {
    ArmKeeps(g1, n, s.thn, n + 2);
    ArmKeeps(EmitArm(g1, n, s.thn, n + 2), n + 1, s.els, n + 2);
  }

  /** The branches of an if: all blocks but the first three are guarded within the branches. */
  lemma {:induction false} BranchesGuard(g1: Cfg, n: nat, s: Stmt)
    requires g1.Ok() && g1.Mirrored() && g1.Size() == n + 3 && s.If?
    ensures AllGuarded(Branches(g1, n, s), n + 3)
    decreases s, 0
  {
    var g2, from := EmitArm(g1, n, s.thn, n + 2), n + 3;
    ArmKeeps(g1, n, s.thn, n + 2);
    ArmGuards(g1, n, s.thn, n + 2);
    ArmGuards(g2, n + 1, s.els, n + 2);
    ArmKeepsAllGuards(g2, n + 1, s.els, n + 2, from);
  }

  /** The branch blocks of an if are entered only from the block before it, its exit only from within. */
  lemma FirstThreeGuarded(g: Cfg, g3: Cfg)
    requires g.Ok() && g.Mirrored() && Grown(g, g3) && Keeps(IfBlocks(g), g3, Some(g.Size() + 2))
    ensures forall b | g.Size() <= b < g.Size() + 3 :: Guarded(g3, b, g.Size())
  {
    var n := g.Size();
    IfBlocksShape(g);
    GuardOfSingle(g3, n, n);
    GuardOfSingle(g3, n + 1, n);
    GuardOfExit(g, g3, n + 2);
  }

  lemma {:induction false} IfGuards(g: Cfg, s: Stmt)
    requires g.Ok() && g.Mirrored() && s.If?
    ensures AllGuarded(Branches(IfBlocks(g), g.Size(), s), g.Size())
    decreases s, 1
  {
    var n := g.Size();
    var g3 := Branches(IfBlocks(g), n, s);
    assert IfBlocks(g).Mirrored() by {
      IfBlocksShape(g);
    }
    BranchesGuard(IfBlocks(g), n, s);
    BranchesKeep(IfBlocks(g), n, s);
    IfGrows(g, s);
    FirstThreeGuarded(g, g3);
    forall b | n <= b < g3.Size() ensures Guarded(g3, b, n) {
      if b >= n + 3 {
        GuardFromEarlier(g3, b, n + 3, n);
      }
    }
  }

  /** Which block is current does not matter for guards. */
  lemma EnterKeepsGuards(g: Cfg, b: nat, from: nat)
    requires g.Ok() && b < g.Size() && AllGuarded(g, from)
    ensures AllGuarded(Enter(g, b), from)
  {
    forall x | from <= x < g.Size() ensures Guarded(Enter(g, b), x, from) {
      GuardSurvives(g, Enter(g, b), x, from, None);
    }
  }

  lemma {:induction false} EmitArmsGuard(g: Cfg, arms: seq<Arm>, default: bool, start: nat, exit: nat, from: nat)
    requires g.Ok() && g.Mirrored() && start < g.Size() && exit < from <= g.Size()
    requires AllGuarded(g, from)
    ensures AllGuarded(EmitArms(g, arms, default, start, exit), from)
    decreases arms
  {
    if arms != [] {
      var front := arms[..|arms| - 1];
      EmitArmsKeep(g, front, default, start, exit);
      EmitArmsGuard(g, front, default, start, exit, from);
      CaseArmGuards(EmitArms(g, front, default, start, exit), arms[|arms| - 1], default, start, exit, from);
    }
  }

  lemma {:induction false} CaseArmGuards(g: Cfg, arm: Arm, default: bool, start: nat, exit: nat, from: nat)
    requires g.Ok() && g.Mirrored() && start < g.Size() && exit < from <= g.Size()
    requires AllGuarded(g, from)
    ensures AllGuarded(EmitCaseArm(g, arm, default, start, exit), from)
    decreases arm
  {
    if arm.isDefault == default {
      var b, g1 := g.Size(), Fork(Enter(g, start), if default then 0 else 1);
      assert Enter(g, start).Mirrored();
      ArmGuards(g1, b, arm.body, exit);
      forall x | from <= x < EmitArm(g1, b, arm.body, exit).Size()
        ensures Guarded(EmitArm(g1, b, arm.body, exit), x, from)
      {
        if x == b {
          GuardOfSingle(g1, b, from);
        } else if x < b {
          GuardSurvives(g, g1, x, from, None);
        }
        ArmKeepsGuards(g1, b, arm.body, exit, x, from);
      }
    }
  }

  lemma {:induction false} CaseGuards(g: Cfg, s: Stmt)
    requires g.Ok() && g.Mirrored() && s.Case?
    ensures AllGuarded(Emit(g, s), g.Size())
    decreases s, 0
  {
    var n, g0 := g.Size(), AddBlock(g, 0);
    assert g0.Mirrored();
    var g1 := EmitArms(g0, s.arms, false, g.top, n);
    var g2 := EmitArms(g1, s.arms, true, g.top, n);
    EmitArmsKeep(g0, s.arms, false, g.top, n);
    EmitArmsKeep(g1, s.arms, true, g.top, n);
    EmitArmsGuard(g0, s.arms, false, g.top, n, n + 1);
    EmitArmsGuard(g1, s.arms, true, g.top, n, n + 1);
    CaseGrows(g, s);
    var g' := Emit(g, s);
    forall b | n <= b < g'.Size() ensures Guarded(g', b, n) {
      if b == n {
        GuardOfExit(g, g', b);
      } else {
        GuardSurvives(g2, g', b, n + 1, None);
        GuardFromEarlier(g', b, n + 1, n);
      }
    }
  }
}
