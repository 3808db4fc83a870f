/** Where the built graph falls apart: a case without arms leaves its exit without an incoming link. */
module EmptyCases {
  import opened Basics
  import opened ControlFlow
  import opened FlowPaths

  /** A block numbered from `from` on has no incoming link. */
  ghost predicate HasCutOff(g: Cfg, from: nat) {
    exists b :: from <= b < |g.preds| && g.preds[b] == {}
  }

  /** Nothing that is added later leads to a block that was cut off, unless it is the exit. */
  lemma CutOffStays(g: Cfg, g': Cfg, exit: Option<nat>, from: nat)
    requires Keeps(g, g', exit) && (exit.Some? ==> exit.value < from) && HasCutOff(g, from)
    ensures HasCutOff(g', from)
  {
    var b :| from <= b < |g.preds| && g.preds[b] == {};
    assert g'.preds[b] == {};
  }

  lemma CutOffFromEarlier(g: Cfg, from: nat, from': nat)
    requires from' <= from && HasCutOff(g, from)
    ensures HasCutOff(g, from')
  {
  }

  /** An empty case anywhere in a statement leaves a block cut off. */
  lemma {:induction false} EmitCutsOff(g: Cfg, s: Stmt)
    requires g.Ok() && g.Mirrored() && !NoEmptyCase(s)
    ensures HasCutOff(Emit(g, s), g.Size())
    decreases s, 2
  {
    match s
    case Block(body) => EmitAllCutsOff(g, body);
    case If(_, _) =>
      TwoForksGrow(g);
      BranchesCutOff(IfBlocks(g), g.Size(), s);
      CutOffFromEarlier(Branches(IfBlocks(g), g.Size(), s), g.Size() + 3, g.Size());
    case Case(arms) =>
      GrownByBlock(g, g, 0);
      var n := g.Size();
      if arms == [] {
        assert Emit(g, s).preds[n] == {};
      } else {
        ArmsCutOff(AddBlock(g, 0), arms, g.top, n);
        CutOffFromEarlier(AllArms(g, arms), n + 1, n);
      }
  }

  lemma {:induction false} EmitAllCutsOff(g: Cfg, body: seq<Stmt>)
    requires g.Ok() && g.Mirrored() && exists k | 0 <= k < |body| :: !NoEmptyCase(body[k])
    ensures HasCutOff(EmitAll(g, body), g.Size())
    decreases body
  {
    var front, last := body[..|body| - 1], body[|body| - 1];
    EmitAllGrow(g, front);
    var g1 := EmitAll(g, front);
    if NoEmptyCase(last) {
      var k :| 0 <= k < |body| && !NoEmptyCase(body[k]);
      assert !NoEmptyCase(front[k]);
      EmitAllCutsOff(g, front);
      KeepsByEmit(g1, last);
      CutOffStays(g1, EmitAll(g, body), None, g.Size());
    } else {
      EmitCutsOff(g1, last);
      CutOffFromEarlier(EmitAll(g, body), g1.Size(), g.Size());
    }
  }

  lemma {:induction false} ArmCutsOff(g: Cfg, b: nat, body: Option<Stmt>, exit: nat)
    requires g.Ok() && g.Mirrored() && b < g.Size() && exit < g.Size() && body.Some? && !NoEmptyCase(body.value)
    ensures HasCutOff(EmitArm(g, b, body, exit), g.Size())
    decreases body
  {
    assert Enter(g, b).Mirrored();
    EmitCutsOff(Enter(g, b), body.value);
    var inner := Emit(Enter(g, b), body.value);
    assert Keeps(inner, Join(inner, exit), Some(exit));
    CutOffStays(inner, Join(inner, exit), Some(exit), g.Size());
  }

  lemma {:induction false} BranchesCutOff(g1: Cfg, n: nat, s: Stmt)
    requires g1.Ok() && g1.Mirrored() && g1.Size() == n + 3 && s.If? && !NoEmptyCase(s)
    ensures HasCutOff(Branches(g1, n, s), n + 3)
    decreases s, 0
  {
    var g2 := EmitArm(g1, n, s.thn, n + 2);
    ArmKeeps(g1, n, s.thn, n + 2);
    ArmKeeps(g2, n + 1, s.els, n + 2);
    if s.thn.Some? && !NoEmptyCase(s.thn.value) {
      ArmCutsOff(g1, n, s.thn, n + 2);
      CutOffStays(g2, Branches(g1, n, s), Some(n + 2), n + 3);
    } else {
      ArmCutsOff(g2, n + 1, s.els, n + 2);
      CutOffFromEarlier(Branches(g1, n, s), g2.Size(), n + 3);
    }
  }

  /** Arm k is emitted in this pass and has an empty case in it. */
  predicate BadArm(arm: Arm, default: bool) {
    arm.isDefault == default && arm.body.Some? && !NoEmptyCase(arm.body.value)
  }

  lemma {:induction false} CaseArmCutsOff(g: Cfg, arm: Arm, default: bool, start: nat, exit: nat)
    requires g.Ok() && g.Mirrored() && start < g.Size() && exit < g.Size() && BadArm(arm, default)
    ensures HasCutOff(EmitCaseArm(g, arm, default, start, exit), g.Size())
    decreases arm
  {
    var g1 := Fork(Enter(g, start), if default then 0 else 1);
    assert Enter(g, start).Mirrored();
    ArmCutsOff(g1, g.Size(), arm.body, exit);
    CutOffFromEarlier(EmitArm(g1, g.Size(), arm.body, exit), g1.Size(), g.Size());
  }

  lemma {:induction false} EmitArmsCutOff(g: Cfg, arms: seq<Arm>, default: bool, start: nat, exit: nat, k: nat)
    requires g.Ok() && g.Mirrored() && start < g.Size() && exit < g.Size()
    requires k < |arms| && BadArm(arms[k], default)
    ensures HasCutOff(EmitArms(g, arms, default, start, exit), g.Size())
    decreases arms, 0
  {
    var front, last := arms[..|arms| - 1], arms[|arms| - 1];
    var g1 := EmitArms(g, front, default, start, exit);
    EmitArmsKeep(g, front, default, start, exit);
    if k < |front| {
      EmitArmsCutOff(g, front, default, start, exit, k);
      CaseArmKeeps(g1, last, default, start, exit);
      CutOffStays(g1, EmitCaseArm(g1, last, default, start, exit), Some(exit), g.Size());
    } else {
      CaseArmCutsOff(g1, last, default, start, exit);
      CutOffFromEarlier(EmitCaseArm(g1, last, default, start, exit), g1.Size(), g.Size());
    }
  }

  lemma {:induction false} ArmsCutOff(g0: Cfg, arms: seq<Arm>, start: nat, n: nat)
    requires g0.Ok() && g0.Mirrored() && g0.Size() == n + 1 && start < g0.Size()
    requires exists k | 0 <= k < |arms| :: arms[k].body.Some? && !NoEmptyCase(arms[k].body.value)
    ensures HasCutOff(EmitArms(EmitArms(g0, arms, false, start, n), arms, true, start, n), n + 1)
    decreases arms, 1
  {
    var k :| 0 <= k < |arms| && arms[k].body.Some? && !NoEmptyCase(arms[k].body.value);
    var g1 := EmitArms(g0, arms, false, start, n);
    var g2 := EmitArms(g1, arms, true, start, n);
    EmitArmsKeep(g0, arms, false, start, n);
    EmitArmsKeep(g1, arms, true, start, n);
    if arms[k].isDefault {
      EmitArmsCutOff(g1, arms, true, start, n, k);
      CutOffFromEarlier(g2, g1.Size(), n + 1);
    } else {
      EmitArmsCutOff(g0, arms, false, start, n, k);
      CutOffStays(g1, g2, Some(n), n + 1);
    }
  }

  /** A path enters each of its blocks but the first through a link. */
  lemma EnteredByLink(g: Cfg, p: seq<nat>, from: nat, to: nat, k: nat)
    requires g.Ok() && g.Mirrored() && Path(g, p, from, to) && 0 < k < |p|
    ensures g.preds[p[k]] != {}
  {
    var j := k - 1;
    assert p[k] in g.succs[p[j]];
    assert p[j] in g.preds[p[k]];
  }

  /** No path from the entry leads through a block that is cut off. */
  lemma CutOffIsOnNoPath(g: Cfg)
    requires g.Ok() && g.Mirrored() && HasCutOff(g, 1)
    ensures !AllOnPath(g)
  {
    var b :| 1 <= b < |g.preds| && g.preds[b] == {};
    forall p, k | Path(g, p, 0, g.top) && 0 < k < |p| ensures p[k] != b {
      EnteredByLink(g, p, 0, g.top, k);
    }
    assert !OnPath(g, b);
  }

  /** Every block lies on a path from the entry to the exit if and only if no case, however nested, is empty. */
  lemma AllOnPathIffNoEmptyCase(s: Stmt)
    ensures AllOnPath(Emit(Entry(), s)) <==> NoEmptyCase(s)
  {
    var g := Emit(Entry(), s);
    if NoEmptyCase(s) {
      EveryBlockOnAPath(s);
    } else {
      EmitGrows(Entry(), s);
      EmitCutsOff(Entry(), s);
      CutOffIsOnNoPath(g);
    }
  }
}
