/** The tags of the blocks of a statement tell them apart, and say which block dominates each. */
module BlockTags {
  import opened Basics
  import opened ControlFlow
  import opened Executions

  // ----- no tag occurs twice -----

  predicate IsUnder(tag: Tag, a: seq<nat>) {
    !tag.Root? && a <= tag.addr
  }

  predicate Under(ts: seq<Tag>, a: seq<nat>) {
    forall i | 0 <= i < |ts| :: IsUnder(ts[i], a)
  }

  /** A tag belongs to arm, or statement, k of the statement at `a`. */
  predicate Belongs(tag: Tag, a: seq<nat>, k: nat) {
    IsUnder(tag, a) && if |tag.addr| > |a| then tag.addr[|a|] == k else tag.Branch? && tag.arm == k
  }

  predicate Owned(ts: seq<Tag>, a: seq<nat>, ks: set<nat>) {
    forall i | 0 <= i < |ts| :: OwnedBy(ts[i], a, ks)
  }

  predicate OwnedBy(tag: Tag, a: seq<nat>, ks: set<nat>) {
    exists k | k in ks :: Belongs(tag, a, k)
  }

  function Below(n: nat): (ks: set<nat>)
    ensures forall k: nat :: k in ks <==> k < n
  {
    if n == 0 then {} else Below(n - 1) + {n - 1}
  }

  function ArmsOf(arms: seq<Arm>, default: bool): set<nat> {
    set k: nat | k < |arms| && arms[k].isDefault == default
  }

  lemma UnderIsOwned(ts: seq<Tag>, a: seq<nat>, k: nat)
    requires Under(ts, a + [k])
    ensures Owned(ts, a, {k})
  {
    forall i | 0 <= i < |ts| ensures OwnedBy(ts[i], a, {k}) {
      assert IsUnder(ts[i], a + [k]);
      assert ts[i].addr[..|a|] == a;
      assert k in {k} && Belongs(ts[i], a, k);
    }
  }

  lemma OwnedIsUnder(ts: seq<Tag>, a: seq<nat>, ks: set<nat>)
    requires Owned(ts, a, ks)
    ensures Under(ts, a)
  {
    forall i | 0 <= i < |ts| ensures IsUnder(ts[i], a) {
      assert OwnedBy(ts[i], a, ks);
    }
  }

  lemma OwnedCat(ts: seq<Tag>, us: seq<Tag>, a: seq<nat>, ks: set<nat>, ls: set<nat>, ms: set<nat>)
    requires Owned(ts, a, ks) && Owned(us, a, ls) && ks <= ms && ls <= ms
    ensures Owned(ts + us, a, ms)
  {
    forall i | 0 <= i < |ts + us| ensures OwnedBy((ts + us)[i], a, ms) {
      if i < |ts| {
        assert OwnedBy(ts[i], a, ks);
      } else {
        assert OwnedBy(us[i - |ts|], a, ls);
      }
    }
  }

  lemma OwnedApart(ts: seq<Tag>, us: seq<Tag>, a: seq<nat>, ks: set<nat>, ls: set<nat>)
    requires Owned(ts, a, ks) && Owned(us, a, ls) && ks !! ls && Distinct(ts) && Distinct(us)
    ensures Distinct(ts + us)
  {
    forall i, j | 0 <= i < |ts| && 0 <= j < |us| ensures ts[i] != us[j] {
      assert OwnedBy(ts[i], a, ks) && OwnedBy(us[j], a, ls);
    }
  }

  lemma {:induction false} TagsDistinct(s: Stmt, a: seq<nat>)
    ensures Distinct(TagsOf(s, a)) && Under(TagsOf(s, a), a)
    decreases s, 1
  {
    match s
    case Simple =>
    case Block(body) =>
      TagsOfAllDistinct(body, a);
      OwnedIsUnder(TagsOfAll(body, a), a, Below(|body|));
    case If(_, _) => IfDistinct(s, a);
    case Case(_) => CaseDistinct(s, a);
  }

  lemma {:induction false} TagsOfOptDistinct(body: Option<Stmt>, a: seq<nat>, k: nat)
    ensures Distinct(TagsOfOpt(body, a + [k])) && Under(TagsOfOpt(body, a + [k]), a + [k])
    ensures Owned(TagsOfOpt(body, a + [k]), a, {k})
    decreases body
  {
    if body.Some? {
      TagsDistinct(body.value, a + [k]);
      UnderIsOwned(TagsOfOpt(body, a + [k]), a, k);
    }
  }

  lemma {:induction false} TagsOfAllDistinct(body: seq<Stmt>, a: seq<nat>)
    ensures Distinct(TagsOfAll(body, a)) && Owned(TagsOfAll(body, a), a, Below(|body|))
    decreases body
  {
    hide Owned, Distinct;
    if body == [] {
      NoneOwned(a, Below(0));
    } else {
      var n := |body| - 1;
      TagsOfAllDistinct(body[..n], a);
      TagsDistinct(body[n], a + [n]);
      UnderIsOwned(TagsOf(body[n], a + [n]), a, n);
      OwnedApart(TagsOfAll(body[..n], a), TagsOf(body[n], a + [n]), a, Below(n), {n});
      OwnedCat(TagsOfAll(body[..n], a), TagsOf(body[n], a + [n]), a, Below(n), {n}, Below(|body|));
    }
  }

  lemma NoneOwned(a: seq<nat>, ks: set<nat>)
    ensures Owned([], a, ks) && Distinct<Tag>([])
  {
  }

  /** Own tags come before those of the arms, whose addresses are longer. */
  lemma OwnApart(own: seq<Tag>, ts: seq<Tag>, a: seq<nat>)
    requires Distinct(own) && Distinct(ts)
    requires forall i | 0 <= i < |own| :: !own[i].Root? && own[i].addr == a
    requires forall j | 0 <= j < |ts| :: IsUnder(ts[j], a) && ts[j].addr != a
    ensures Distinct(own + ts) && Under(own + ts, a)
  {
  }

  lemma LongerThan(ts: seq<Tag>, a: seq<nat>, k: nat)
    requires Under(ts, a + [k])
    ensures forall j | 0 <= j < |ts| :: IsUnder(ts[j], a) && ts[j].addr != a
  {
    forall j | 0 <= j < |ts| ensures IsUnder(ts[j], a) && ts[j].addr != a {
      assert IsUnder(ts[j], a + [k]);
      assert ts[j].addr[..|a|] == a;
    }
  }

  lemma {:induction false} IfDistinct(s: Stmt, a: seq<nat>)
    requires s.If?
    ensures Distinct(TagsOf(s, a)) && Under(TagsOf(s, a), a)
    decreases s, 0
  {
    hide Owned, Under, TagsOfOpt;
    var own := [Branch(a, 0, true), Branch(a, 1, true), Exit(a)];
    var ts, us := TagsOfOpt(s.thn, a + [0]), TagsOfOpt(s.els, a + [1]);
    TagsOfOptDistinct(s.thn, a, 0);
    TagsOfOptDistinct(s.els, a, 1);
    OwnedApart(ts, us, a, {0}, {1});
    LongerThan(ts, a, 0);
    LongerThan(us, a, 1);
    OwnApart(own, ts + us, a);
    assert own + (ts + us) == TagsOf(s, a);
  }

  lemma {:induction false} TagsOfArmDistinct(arms: seq<Arm>, k: nat, a: seq<nat>)
    requires k < |arms|
    ensures var ts := TagsOfArm(arms[k], k, arms[k].isDefault, a); Distinct(ts) && Owned(ts, a, {k})
    decreases arms[k]
  {
    hide TagsOfOpt;
    var own, ts := [Branch(a, k, !arms[k].isDefault)], TagsOfOpt(arms[k].body, a + [k]);
    TagsOfOptDistinct(arms[k].body, a, k);
    LongerThan(ts, a, k);
    OwnApart(own, ts, a);
    assert Owned(own, a, {k}) by {
      assert k in {k} && Belongs(own[0], a, k);
    }
    OwnedCat(own, ts, a, {k}, {k}, {k});
  }

  lemma {:induction false} TagsOfArmsDistinct(arms: seq<Arm>, default: bool, a: seq<nat>)
    ensures Distinct(TagsOfArms(arms, default, a)) && Owned(TagsOfArms(arms, default, a), a, ArmsOf(arms, default))
    decreases arms
  {
    hide Owned, Distinct;
    if arms == [] {
      NoneOwned(a, ArmsOf(arms, default));
    } else {
      var n := |arms| - 1;
      var ts, us := TagsOfArms(arms[..n], default, a), TagsOfArm(arms[n], n, default, a);
      var ks, ls := ArmsOf(arms[..n], default), if arms[n].isDefault == default then {n} else {};
      TagsOfArmsDistinct(arms[..n], default, a);
      if arms[n].isDefault == default {
        TagsOfArmDistinct(arms, n, a);
      } else {
        NoneOwned(a, ls);
      }
      OwnedApart(ts, us, a, ks, ls);
      OwnedCat(ts, us, a, ks, ls, ArmsOf(arms, default));
    }
  }

  lemma {:induction false} CaseDistinct(s: Stmt, a: seq<nat>)
    requires s.Case?
    ensures Distinct(TagsOf(s, a)) && Under(TagsOf(s, a), a)
    decreases s, 0
  {
    hide TagsOfArms;
    var ts, us := TagsOfArms(s.arms, false, a), TagsOfArms(s.arms, true, a);
    var ks, ls := ArmsOf(s.arms, false), ArmsOf(s.arms, true);
    TagsOfArmsDistinct(s.arms, false, a);
    TagsOfArmsDistinct(s.arms, true, a);
    OwnedApart(ts, us, a, ks, ls);
    OwnedCat(ts, us, a, ks, ls, ks + ls);
    ExitApart(ts + us, a, ks + ls);
    assert [Exit(a)] + (ts + us) == TagsOf(s, a);
  }

  lemma ExitApart(ts: seq<Tag>, a: seq<nat>, ks: set<nat>)
    requires Owned(ts, a, ks) && Distinct(ts)
    ensures Distinct([Exit(a)] + ts) && Under([Exit(a)] + ts, a)
  {
    OwnedIsUnder(ts, a, ks);
    forall i | 0 <= i < |ts| ensures ts[i] != Exit(a) && IsUnder(ts[i], a) {
      assert OwnedBy(ts[i], a, ks);
    }
  }

  // ----- dominators -----

  /** What was current before the statement at an address. */
  type Current = seq<nat> -> nat

  /** Block b is dominated by what was current before its statement; a branch block is entered only from there. */
  predicate DomAt(g: Cfg, b: nat, tag: Tag, D: Current)
    requires g.Ok() && b < g.Size()
  {
    !tag.Root? && g.idom[b] == Some(D(tag.addr)) && (tag.Branch? ==> g.preds[b] == {D(tag.addr)})
  }

  ghost predicate DomsAt(g: Cfg, from: nat, t: seq<Tag>, D: Current) {
    g.Ok() && |t| == g.Size() && forall b | from <= b < |t| :: DomAt(g, b, t[b], D)
  }

  function Switch(cut: seq<nat>, D1: Current, D2: Current): Current {
    x => if cut <= x then D2(x) else D1(x)
  }

  /** No block from `from` on has an address under `cut`. */
  ghost predicate Free(t: seq<Tag>, from: nat, cut: seq<nat>) {
    forall b | from <= b < |t| :: !IsUnder(t[b], cut)
  }

  /** A part, and another at addresses of its own. */
  lemma DomsJoin(g1: Cfg, g2: Cfg, from: nat, t1: seq<Tag>, ts: seq<Tag>, exit: Option<nat>, D1: Current, D2: Current,
                 cut: seq<nat>)
    requires DomsAt(g1, from, t1, D1) && Keeps(g1, g2, exit) && DomsAt(g2, g1.Size(), t1 + ts, D2)
    requires exit.Some? && exit.value < |t1| ==> exit.value < from || t1[exit.value].Exit?
    requires Free(t1, from, cut) && Under(ts, cut)
    ensures DomsAt(g2, from, t1 + ts, Switch(cut, D1, D2))
  {
    var t2, D := t1 + ts, Switch(cut, D1, D2);
    forall b | from <= b < |t2| ensures DomAt(g2, b, t2[b], D) {
      if b < |t1| {
        assert DomAt(g1, b, t1[b], D1) && !IsUnder(t1[b], cut);
      } else {
        assert DomAt(g2, b, t2[b], D2) && IsUnder(ts[b - |t1|], cut);
      }
    }
  }

  /** Which block is current does not matter here. */
  lemma DomsKept(g: Cfg, g': Cfg, from: nat, t: seq<Tag>, exit: Option<nat>, D: Current)
    requires DomsAt(g, from, t, D) && Keeps(g, g', exit) && g'.Size() == g.Size()
    requires exit.Some? && exit.value < |t| ==> exit.value < from || t[exit.value].Exit?
    ensures DomsAt(g', from, t, D)
  {
    forall b | from <= b < |t| ensures DomAt(g', b, t[b], D) {
      assert DomAt(g, b, t[b], D);
    }
  }

  lemma {:induction false} EmitDoms(g: Cfg, s: Stmt, a: seq<nat>, t: seq<Tag>) returns (D: Current)
    requires g.Ok() && g.Mirrored() && |t| == g.Size()
    ensures DomsAt(Emit(g, s), g.Size(), t + TagsOf(s, a), D)
    decreases s, 2
  {
    match s
    case Simple =>
      D := x => 0;
    case Block(body) =>
      D := EmitAllDoms(g, body, a, t);
    case If(_, _) =>
      D := IfDoms(g, s, a, t);
    case Case(_) =>
      D := CaseDoms(g, s, a, t);
  }

  lemma {:induction false} EmitAllDoms(g: Cfg, body: seq<Stmt>, a: seq<nat>, t: seq<Tag>) returns (D: Current)
    requires g.Ok() && g.Mirrored() && |t| == g.Size()
    ensures DomsAt(EmitAll(g, body), g.Size(), t + TagsOfAll(body, a), D)
    decreases body
  {
    if body == [] {
      D := x => 0;
    } else {
      hide DomsAt, Keeps, Free, Emit, EmitAll, TagsOf, TagsOfAll, Owned;
      var n := |body| - 1;
      var g1, t1, ts := EmitAll(g, body[..n]), t + TagsOfAll(body[..n], a), TagsOf(body[n], a + [n]);
      var D1 := EmitAllDoms(g, body[..n], a, t);
      EmitAllGrow(g, body[..n]);
      KeepsByEmit(g1, body[n]);
      SizeOfAll(g, body[..n], a);
      var D2 := EmitDoms(g1, body[n], a + [n], t1);
      TagsOfAllDistinct(body[..n], a);
      TagsDistinct(body[n], a + [n]);
      OwnedIsFree(t, TagsOfAll(body[..n], a), a, Below(n), n);
      AllSnoc(g, body, a);
      DomsJoin(g1, EmitAll(g, body), g.Size(), t1, ts, None, D1, D2, a + [n]);
      D := Switch(a + [n], D1, D2);
      assert t + TagsOfAll(body, a) == t1 + ts;
    }
  }

  lemma OwnedIsFree(t: seq<Tag>, ts: seq<Tag>, a: seq<nat>, ks: set<nat>, k: nat)
    requires Owned(ts, a, ks) && k !in ks
    ensures Free(t + ts, |t|, a + [k])
  {
    forall b | |t| <= b < |t + ts| ensures !IsUnder((t + ts)[b], a + [k]) {
      assert OwnedBy(ts[b - |t|], a, ks);
    }
  }

  lemma {:induction false} ArmDoms(g: Cfg, b: nat, body: Option<Stmt>, exit: nat, a: seq<nat>, t: seq<Tag>)
    returns (D: Current)
    requires g.Ok() && g.Mirrored() && b < g.Size() && exit < g.Size() && |t| == g.Size()
    ensures DomsAt(EmitArm(g, b, body, exit), g.Size(), t + TagsOfOpt(body, a), D)
    decreases body
  {
    match body
    case None =>
      D := x => 0;
    case Some(s) =>
      assert Enter(g, b).Mirrored();
      D := EmitDoms(Enter(g, b), s, a, t);
      var inner := Emit(Enter(g, b), s);
      DomsKept(inner, Join(inner, exit), g.Size(), t + TagsOf(s, a), Some(exit), D);
  }

  lemma IfBlocksDoms(g: Cfg, a: seq<nat>, t: seq<Tag>)
    requires g.Ok() && g.Mirrored() && |t| == g.Size()
    ensures DomsAt(IfBlocks(g), g.Size(), t + [Branch(a, 0, true), Branch(a, 1, true), Exit(a)], x => g.top)
    ensures IfBlocks(g).Mirrored()
  {
    IfBlocksShape(g);
  }

  lemma {:induction false} IfDoms(g: Cfg, s: Stmt, a: seq<nat>, t: seq<Tag>) returns (D: Current)
    requires g.Ok() && g.Mirrored() && s.If? && |t| == g.Size()
    ensures DomsAt(Emit(g, s), g.Size(), t + TagsOf(s, a), D)
    decreases s, 1
  {
    hide DomsAt, Keeps, Free, IfBlocks, Emit, EmitArm, TagsOf, TagsOfOpt, Owned;
    var n, t1 := g.Size(), t + [Branch(a, 0, true), Branch(a, 1, true), Exit(a)];
    var ts, us := TagsOfOpt(s.thn, a + [0]), TagsOfOpt(s.els, a + [1]);
    var g1 := IfBlocks(g);
    var g2 := EmitArm(g1, n, s.thn, n + 2);
    var g3 := EmitArm(g2, n + 1, s.els, n + 2);
    IfBlocksDoms(g, a, t);
    ArmKeeps(g1, n, s.thn, n + 2);
    ArmKeeps(g2, n + 1, s.els, n + 2);
    var D1 := ArmDoms(g1, n, s.thn, n + 2, a + [0], t1);
    SizeOfOpt(g1, n, s.thn, n + 2, a + [0]);
    var D2 := ArmDoms(g2, n + 1, s.els, n + 2, a + [1], t1 + ts);
    TagsOfOptDistinct(s.thn, a, 0);
    TagsOfOptDistinct(s.els, a, 1);
    OwnIsFree(t, a, ts);
    DomsJoin(g1, g2, n, t1, ts, Some(n + 2), x => g.top, D1, a + [0]);
    DomsJoin(g2, g3, n, t1 + ts, us, Some(n + 2), Switch(a + [0], x => g.top, D1), D2, a + [1]);
    D := Switch(a + [1], Switch(a + [0], x => g.top, D1), D2);
    EnterKeepsAll(g3, n + 2);
    IfEmits(g, s, a);
    DomsKept(g3, Emit(g, s), n, t1 + ts + us, None, D);
    assert t + TagsOf(s, a) == t1 + ts + us;
  }

  lemma EnterKeepsAll(g: Cfg, b: nat)
    requires g.Ok() && b < g.Size()
    ensures Keeps(g, Enter(g, b), None)
  {
  }

  lemma OwnIsFree(t: seq<Tag>, a: seq<nat>, ts: seq<Tag>)
    requires Owned(ts, a, {0})
    ensures var t1 := t + [Branch(a, 0, true), Branch(a, 1, true), Exit(a)];
            Free(t1, |t|, a + [0]) && Free(t1 + ts, |t|, a + [1])
  {
    var own := [Branch(a, 0, true), Branch(a, 1, true), Exit(a)];
    var t1 := t + own;
    forall b | |t| <= b < |t1 + ts| ensures !IsUnder((t1 + ts)[b], a + [1]) && (b < |t1| ==> !IsUnder(t1[b], a + [0])) {
      if b >= |t1| {
        assert OwnedBy(ts[b - |t1|], a, {0});
      }
    }
  }

  // ----- the arms of a case -----

  /** No block from `from` on belongs to an arm of this pass. */
  ghost predicate ArmsFree(t: seq<Tag>, from: nat, arms: seq<Arm>, default: bool, a: seq<nat>) {
    forall k | k in ArmsOf(arms, default) :: Free(t, from, a + [k])
  }

  lemma {:induction false} EmitArmsDoms(g: Cfg, from: nat, arms: seq<Arm>, default: bool, start: nat, exit: nat,
                                        a: seq<nat>, t: seq<Tag>, D: Current) returns (D': Current)
    requires g.Ok() && g.Mirrored() && start < g.Size() && from <= exit < g.Size() == |t| && t[exit].Exit?
    requires DomsAt(g, from, t, D) && D(a) == start && ArmsFree(t, from, arms, default, a)
    ensures DomsAt(EmitArms(g, arms, default, start, exit), from, t + TagsOfArms(arms, default, a), D')
    ensures D'(a) == start
    decreases arms, 1
  {
    if arms == [] {
      D' := D;
      assert t + TagsOfArms(arms, default, a) == t;
    } else {
      hide DomsAt, Keeps, Free, EmitArms, EmitCaseArm, TagsOfArms, TagsOfArm, Owned;
      var n := |arms| - 1;
      var g0, ts := EmitArms(g, arms[..n], default, start, exit), TagsOfArms(arms[..n], default, a);
      FrontFree(t, from, arms, default, a);
      var D0 := EmitArmsDoms(g, from, arms[..n], default, start, exit, a, t, D);
      EmitArmsKeep(g, arms[..n], default, start, exit);
      SizeOfArms(g, arms[..n], default, start, exit, a);
      LastArm(g, arms, default, start, exit, a);
      assert t + TagsOfArms(arms, default, a) == t + ts + TagsOfArm(arms[n], n, default, a);
      D' := D0;
      if arms[n].isDefault == default {
        LastIsFree(t, from, arms, default, a);
        D' := CaseArmDoms(g0, from, arms, n, start, exit, a, t + ts, D0);
      } else {
        NoArm(g0, arms[n], n, default, start, exit, a);
        assert t + ts + [] == t + ts;
      }
    }
  }

  lemma NoArm(g: Cfg, arm: Arm, k: nat, default: bool, start: nat, exit: nat, a: seq<nat>)
    requires g.Ok() && start < g.Size() && exit < g.Size() && arm.isDefault != default
    ensures EmitCaseArm(g, arm, default, start, exit) == g && TagsOfArm(arm, k, default, a) == []
  {
  }

  lemma FrontFree(t: seq<Tag>, from: nat, arms: seq<Arm>, default: bool, a: seq<nat>)
    requires arms != [] && ArmsFree(t, from, arms, default, a)
    ensures ArmsFree(t, from, arms[..|arms| - 1], default, a)
  {
    hide Free;
    assert ArmsOf(arms[..|arms| - 1], default) <= ArmsOf(arms, default);
  }

  lemma LastIsFree(t: seq<Tag>, from: nat, arms: seq<Arm>, default: bool, a: seq<nat>)
    requires arms != [] && arms[|arms| - 1].isDefault == default && ArmsFree(t, from, arms, default, a)
    ensures var n := |arms| - 1; Free(t + TagsOfArms(arms[..n], default, a), from, a + [n])
  {
    hide Free, Owned;
    var n := |arms| - 1;
    var ts := TagsOfArms(arms[..n], default, a);
    assert n in ArmsOf(arms, default);
    TagsOfArmsDistinct(arms[..n], default, a);
    OwnedIsFree(t, ts, a, ArmsOf(arms[..n], default), n);
    FreeCat(t, ts, from, a + [n]);
  }

  lemma FreeCat(t: seq<Tag>, ts: seq<Tag>, from: nat, cut: seq<nat>)
    requires Free(t, from, cut) && Free(t + ts, |t|, cut)
    ensures Free(t + ts, from, cut)
  {
    forall b | from <= b < |t + ts| ensures !IsUnder((t + ts)[b], cut) {
      if b < |t| {
        assert !IsUnder(t[b], cut);
      }
    }
  }

  lemma ForkDoms(g: Cfg, from: nat, start: nat, weight: nat, tag: Tag, t: seq<Tag>, D: Current)
    requires g.Ok() && g.Mirrored() && start < g.Size() == |t| && DomsAt(g, from, t, D) && from <= g.Size()
    requires tag.Branch? && D(tag.addr) == start
    ensures DomsAt(Fork(Enter(g, start), weight), from, t + [tag], D) && Fork(Enter(g, start), weight).Mirrored()
  {
    assert Enter(g, start).Mirrored();
    ForkKeeps(Enter(g, start), weight);
    forall b | from <= b < |t| ensures DomAt(Fork(Enter(g, start), weight), b, t[b], D) {
      assert DomAt(g, b, t[b], D);
    }
  }

  lemma {:induction false} CaseArmDoms(g: Cfg, from: nat, arms: seq<Arm>, k: nat, start: nat, exit: nat, a: seq<nat>,
                                       t: seq<Tag>, D: Current) returns (D': Current)
    requires g.Ok() && g.Mirrored() && start < g.Size() && from <= exit < g.Size() == |t| && t[exit].Exit?
    requires k < |arms| && DomsAt(g, from, t, D) && D(a) == start && Free(t, from, a + [k])
    ensures var default := arms[k].isDefault;
            DomsAt(EmitCaseArm(g, arms[k], default, start, exit), from, t + TagsOfArm(arms[k], k, default, a), D')
    ensures D'(a) == start
    decreases arms[k]
  {
    hide DomsAt, Keeps, Fork, EmitArm, TagsOfOpt;
    var default, b, ts := arms[k].isDefault, g.Size(), TagsOfOpt(arms[k].body, a + [k]);
    var g1, t1 := Fork(Enter(g, start), if default then 0 else 1), t + [Branch(a, k, !default)];
    ForkDoms(g, from, start, if default then 0 else 1, Branch(a, k, !default), t, D);
    ArmKeeps(g1, b, arms[k].body, exit);
    var D2 := ArmDoms(g1, b, arms[k].body, exit, a + [k], t1);
    TagsOfOptDistinct(arms[k].body, a, k);
    assert Free(t1, from, a + [k]);
    DomsJoin(g1, EmitArm(g1, b, arms[k].body, exit), from, t1, ts, Some(exit), D, D2, a + [k]);
    D' := Switch(a + [k], D, D2);
    assert t + TagsOfArm(arms[k], k, default, a) == t1 + ts;
  }

  lemma ExitDoms(g: Cfg, a: seq<nat>, t: seq<Tag>)
    requires g.Ok() && g.Mirrored() && |t| == g.Size()
    ensures AddBlock(g, 0).Mirrored() && DomsAt(AddBlock(g, 0), g.Size(), t + [Exit(a)], x => g.top)
  {
  }

  lemma PassesFree(t: seq<Tag>, arms: seq<Arm>, a: seq<nat>, ts: seq<Tag>)
    requires Owned(ts, a, ArmsOf(arms, false))
    ensures ArmsFree(t + [Exit(a)], |t|, arms, false, a) && ArmsFree(t + [Exit(a)] + ts, |t|, arms, true, a)
  {
    forall k | k in ArmsOf(arms, true) ensures Free(t + [Exit(a)] + ts, |t|, a + [k]) {
      OwnedIsFree(t + [Exit(a)], ts, a, ArmsOf(arms, false), k);
      assert Free(t + [Exit(a)], |t|, a + [k]);
      FreeCat(t + [Exit(a)], ts, |t|, a + [k]);
    }
  }

  lemma {:induction false} CaseDoms(g: Cfg, s: Stmt, a: seq<nat>, t: seq<Tag>) returns (D: Current)
    requires g.Ok() && g.Mirrored() && s.Case? && |t| == g.Size()
    ensures DomsAt(Emit(g, s), g.Size(), t + TagsOf(s, a), D)
    decreases s, 1
  {
    hide DomsAt, Keeps, Free, EmitArms, TagsOfArms, ArmsFree;
    var n, g0, t0 := g.Size(), AddBlock(g, 0), t + [Exit(a)];
    var g1, ts := EmitArms(g0, s.arms, false, g.top, n), TagsOfArms(s.arms, false, a);
    var g2, us := EmitArms(g1, s.arms, true, g.top, n), TagsOfArms(s.arms, true, a);
    ExitDoms(g, a, t);
    TagsOfArmsDistinct(s.arms, false, a);
    PassesFree(t, s.arms, a, ts);
    var D1 := EmitArmsDoms(g0, n, s.arms, false, g.top, n, a, t0, x => g.top);
    EmitArmsKeep(g0, s.arms, false, g.top, n);
    SizeOfArms(g0, s.arms, false, g.top, n, a);
    D := EmitArmsDoms(g1, n, s.arms, true, g.top, n, a, t0 + ts, D1);
    EnterKeepsAll(g2, n);
    DomsKept(g2, Emit(g, s), n, t0 + ts + us, None, D);
    assert t + TagsOf(s, a) == t0 + ts + us;
  }
}
