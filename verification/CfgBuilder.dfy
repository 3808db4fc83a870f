/** The walk over a statement tree that builds the basic blocks of a process in place. */
module CfgBuilder {
  import opened Basics
  import opened ControlFlow
  import opened FlowPaths
  import opened EmptyCases
  import opened GraphExecutions

  /** At most one default arm in every case, and a statement in every arm. */
  predicate ArmsOk(s: Stmt) {
    match s
    case Simple => true
    case Block(body) => forall k | 0 <= k < |body| :: ArmsOk(body[k])
    case If(t, f) => (t.Some? ==> ArmsOk(t.value)) && (f.Some? ==> ArmsOk(f.value))
    case Case(arms) =>
      OneDefault(arms) && forall k | 0 <= k < |arms| :: arms[k].body.Some? && ArmsOk(arms[k].body.value)
  }

  /** Emitting the default arms means emitting the only one there is. */
  lemma {:induction false} OnlyDefault(g: Cfg, arms: seq<Arm>, start: nat, exit: nat, k: nat)
    requires g.Ok() && start < g.Size() && exit < g.Size() && OneDefault(arms) && k <= |arms|
    requires k < |arms| ==> arms[k].isDefault
    requires k == |arms| ==> forall a | 0 <= a < |arms| :: !arms[a].isDefault
    ensures EmitArms(g, arms, true, start, exit)
         == if k < |arms| then EmitCaseArm(g, arms[k], true, start, exit) else g
  {
    if arms != [] {
      var front, last := arms[..|arms| - 1], |arms| - 1;
      if k < last {
        OnlyDefault(g, front, start, exit, k);
        assert !arms[last].isDefault;
      } else {
        OnlyDefault(g, front, start, exit, last);
      }
    }
  }

  lemma ArmsSnoc(g: Cfg, arms: seq<Arm>, idx: nat, start: nat, exit: nat)
    requires g.Ok() && start < g.Size() && exit < g.Size() && idx < |arms|
    ensures var g0 := EmitArms(g, arms[..idx], false, start, exit);
            EmitArms(g, arms[..idx + 1], false, start, exit) ==
              if arms[idx].isDefault then g0 else EmitCaseArm(g0, arms[idx], arms[idx].isDefault, start, exit)
  {
    assert arms[..idx + 1][..idx] == arms[..idx];
  }

  /** `k` is the default arm among the first n, or the number of arms when there is none. */
  predicate DefaultFoundBefore(arms: seq<Arm>, k: nat, n: nat)
    requires n <= |arms|
  {
    if k < |arms| then k < n && arms[k].isDefault
    else k == |arms| && forall a | 0 <= a < n :: !arms[a].isDefault
  }

  class ProcessBuilder {
    var preds: seq<set<nat>>
    var succs: seq<set<nat>>
    var idom: seq<Option<nat>>
    var weight: seq<nat>
    var topBb: nat

    function Graph(): Cfg
      reads this
    {
      Cfg(preds, succs, idom, weight, topBb)
    }

    /** A process starts with its entry block. */
    constructor ()
      ensures Graph() == Entry()
    {
      preds, succs, idom, weight, topBb := [{}], [{}], [None], [0], 0;
    }

    method NewBlock(dominator: nat, w: nat) returns (id: nat)
      requires Graph().Ok() && dominator < |preds|
      modifies this
      ensures Graph().Ok() && Graph() == AddBlock(old(Graph()).(top := dominator), w).(top := old(topBb))
      ensures id == old(|preds|)
    {
      id := |preds|;
      preds, succs := preds + [{}], succs + [{}];
      idom, weight := idom + [Some(dominator)], weight + [w];
    }

    method Connect(u: nat, v: nat)
      requires Graph().Ok() && u < |preds| && v < |preds|
      modifies this
      ensures Graph() == Link(old(Graph()), u, v)
    {
      preds := preds[v := preds[v] + {u}];
      succs := succs[u := succs[u] + {v}];
    }

    method EmitStmt(s: Stmt)
      requires Graph().Ok() && ArmsOk(s)
      modifies this
      ensures Graph() == Emit(old(Graph()), s)
      decreases s, 2
    {
      match s
      case Simple =>
      case Block(body) =>
        for idx := 0 to |body|
          invariant Graph() == EmitAll(old(Graph()), body[..idx])
        {
          assert body[..idx + 1][..idx] == body[..idx];
          EmitStmt(body[idx]);
        }
        assert body[..|body|] == body;
      case If(_, _) =>
        EmitStmtCondit(s);
      case Case(_) =>
        EmitStmtCase(s);
    }

    /** A branch whose block exists: enter it, emit, and lead to the exit. */
    method EmitBranch(b: nat, body: Option<Stmt>, exit: nat)
      requires Graph().Ok() && b < |preds| && exit < |preds| && (body.Some? ==> ArmsOk(body.value))
      modifies this
      ensures Graph() == EmitArm(old(Graph()), b, body, exit)
      decreases body
    {
      topBb := b;
      if body.Some? {
        EmitStmt(body.value);
      }
      Connect(topBb, exit);
    }

    /** The blocks of an if: both branches, entered from the current block, and the exit. */
    method NewIfBlocks() returns (trueBb: nat, falseBb: nat, exitBb: nat)
      requires Graph().Ok()
      modifies this
      ensures Graph() == IfBlocks(old(Graph()))
      ensures trueBb == old(|preds|) && falseBb == trueBb + 1 && exitBb == trueBb + 2
    {
      trueBb := NewBranchBlock();
      falseBb := NewBranchBlock();
      exitBb := NewBlock(topBb, 0);
    }

    /** A branch block entered from the current block. */
    method NewBranchBlock() returns (b: nat)
      requires Graph().Ok()
      modifies this
      ensures Graph() == Fork(old(Graph()), 1) && b == old(|preds|)
    {
      b := NewBlock(topBb, 1);
      Connect(topBb, b);
    }

    method EmitStmtCondit(s: Stmt)
      requires Graph().Ok() && s.If? && ArmsOk(s)
      modifies this
      ensures Graph() == Emit(old(Graph()), s)
      decreases s, 1
    {
      var trueBb, falseBb, exitBb := NewIfBlocks();
      EmitBranches(trueBb, falseBb, exitBb, s);
      topBb := exitBb;
    }

    method EmitBranches(trueBb: nat, falseBb: nat, exitBb: nat, s: Stmt)
      requires Graph().Ok() && s.If? && ArmsOk(s)
      requires falseBb == trueBb + 1 && exitBb == trueBb + 2 && |preds| == trueBb + 3
      modifies this
      ensures Graph() == Branches(old(Graph()), trueBb, s)
      decreases s, 0
    {
      EmitBranch(trueBb, s.thn, exitBb);
      EmitBranch(falseBb, s.els, exitBb);
    }

    /** One arm of a case: a new block entered from `start`. */
    method EmitCaseBranch(arm: Arm, w: nat, start: nat, exit: nat)
      requires Graph().Ok() && start < |preds| && exit < |preds| && arm.body.Some? && ArmsOk(arm.body.value)
      requires w == if arm.isDefault then 0 else 1
      modifies this
      ensures Graph() == EmitCaseArm(old(Graph()), arm, arm.isDefault, start, exit)
      decreases arm, 0
    {
      topBb := start;
      var b := NewBlock(start, w);
      Connect(start, b);
      assert Graph() == Fork(Enter(old(Graph()), start), w);
      EmitBranch(b, arm.body, exit);
    }

    /** The loop over the arms of a case, which leaves the default arm for later. */
    method EmitPlainArms(arms: seq<Arm>, start: nat, exit: nat) returns (defaultCase: nat)
      requires Graph().Ok() && start < |preds| && exit < |preds| && OneDefault(arms)
      requires forall k | 0 <= k < |arms| :: arms[k].body.Some? && ArmsOk(arms[k].body.value)
      modifies this
      ensures Graph() == EmitArms(old(Graph()), arms, false, start, exit)
      ensures DefaultFoundBefore(arms, defaultCase, |arms|)
      decreases arms
    {
      defaultCase := |arms|;
      for idx := 0 to |arms|
        invariant Graph() == EmitArms(old(Graph()), arms[..idx], false, start, exit)
        invariant DefaultFoundBefore(arms, defaultCase, idx)
      {
        if arms[idx].isDefault {
          assert defaultCase == |arms|;
          defaultCase := idx;
        }
        EmitPlainArm(arms, idx, start, exit, old(Graph()));
      }
      assert arms[..|arms|] == arms;
    }

    /** One turn of this loop. */
    method EmitPlainArm(arms: seq<Arm>, idx: nat, start: nat, exit: nat, ghost g: Cfg)
      requires g.Ok() && start < g.Size() && exit < g.Size()
      requires idx < |arms| && arms[idx].body.Some? && ArmsOk(arms[idx].body.value)
      requires Graph() == EmitArms(g, arms[..idx], false, start, exit)
      modifies this
      ensures Graph() == EmitArms(g, arms[..idx + 1], false, start, exit)
      decreases arms[idx], 1
    {
      ArmsSnoc(g, arms, idx, start, exit);
      if !arms[idx].isDefault {
        EmitCaseBranch(arms[idx], 1, start, exit);
      }
    }

    /** The default arm is emitted after all others. */
    method EmitStmtCase(s: Stmt)
      requires Graph().Ok() && s.Case? && ArmsOk(s)
      modifies this
      ensures Graph() == Emit(old(Graph()), s)
      decreases s, 1
    {
      var top := topBb;
      var exitBb := NewBlock(top, 0);
      var defaultCase := EmitPlainArms(s.arms, top, exitBb);
      OnlyDefault(Graph(), s.arms, top, exitBb, defaultCase);
      if defaultCase < |s.arms| {
        EmitCaseBranch(s.arms[defaultCase], 0, top, exitBb);
      }
      topBb := exitBb;
    }
  }

  /** What the builder produces for a whole process: the graph of its statement, whose paths are the executions;
      links recorded at both ends, no cycle, every `idom` link to a true dominator, and, exactly when no case is
      empty, every block between entry and exit. */
  method BuildProcess(s: Stmt) returns (builder: ProcessBuilder)
    requires ArmsOk(s)
    ensures builder.Graph().Ok() && builder.Graph().Mirrored() && IsGraphOf(builder.Graph(), s)
    ensures var g := builder.Graph();
            && (forall p, b | Path(g, p, b, b) :: |p| == 1)
            && (AllOnPath(g) <==> NoEmptyCase(s))
            && (forall p, b | 0 < b < g.Size() && Path(g, p, 0, b) ::
                  g.idom[b].Some? && g.idom[b].value != b && g.idom[b].value in p)
  {
    builder := new ProcessBuilder();
    builder.EmitStmt(s);
    BuildsItsGraph(s);
    EmitGrows(Entry(), s);
    Acyclic(s);
    AllOnPathIffNoEmptyCase(s);
    IdomDominates(s);
  }
}
