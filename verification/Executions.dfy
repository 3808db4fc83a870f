/** What a statement tree does, told without the graph: its branches, its executions, and the proof that the built
    graph has exactly these. */
module Executions {
  import opened Basics
  import opened ControlFlow
  import opened FlowPaths

  /** What a block is for: the entry, an arm of the statement at an address in the tree, or the end of that
      statement. An arm is plain when it is a branch of an if or not the default arm of a case. */
  datatype Tag = Root | Branch(addr: seq<nat>, arm: nat, plain: bool) | Exit(addr: seq<nat>)

  // ----- executions -----

  /** Going through one arm of the statement at `a`. */
  predicate Framed(a: seq<nat>, arm: nat, plain: bool, w: seq<Tag>) {
    |w| >= 2 && w[0] == Branch(a, arm, plain) && w[|w| - 1] == Exit(a)
  }

  function Inside<T>(w: seq<T>): seq<T>
    requires |w| >= 2
  {
    w[1..|w| - 1]
  }

  /** `w` is an execution of the statement at address `a`: the branches chosen, and the ends of the statements
      they belong to, in order. */
  ghost predicate Exec(s: Stmt, a: seq<nat>, w: seq<Tag>)
    decreases s
  {
    match s
    case Simple => w == []
    case Block(body) => ExecAll(body, a, w)
    case If(t, f) =>
      || (Framed(a, 0, true, w) && ExecOpt(t, a + [0], Inside(w)))
      || (Framed(a, 1, true, w) && ExecOpt(f, a + [1], Inside(w)))
    case Case(arms) =>
      exists k | 0 <= k < |arms| :: Framed(a, k, !arms[k].isDefault, w) && ExecOpt(arms[k].body, a + [k], Inside(w))
  }

  ghost predicate ExecOpt(body: Option<Stmt>, a: seq<nat>, w: seq<Tag>)
    decreases body
  {
    match body
    case None => w == []
    case Some(s) => Exec(s, a, w)
  }

  /** One statement after the other. */
  ghost predicate ExecAll(body: seq<Stmt>, a: seq<nat>, w: seq<Tag>)
    decreases body
  {
    if body == [] then w == []
    else
      var n := |body| - 1;
      exists i | 0 <= i <= |w| :: ExecAll(body[..n], a, w[..i]) && Exec(body[n], a + [n], w[i..])
  }

  // ----- the blocks of a statement -----

  /** The arms and ends in a statement: first its own, then those of the statements in it. */
  function TagsOf(s: Stmt, a: seq<nat>): seq<Tag>
    decreases s
  {
    match s
    case Simple => []
    case Block(body) => TagsOfAll(body, a)
    case If(t, f) => [Branch(a, 0, true), Branch(a, 1, true), Exit(a)] + TagsOfOpt(t, a + [0]) + TagsOfOpt(f, a + [1])
    case Case(arms) => [Exit(a)] + TagsOfArms(arms, false, a) + TagsOfArms(arms, true, a)
  }

  function TagsOfOpt(body: Option<Stmt>, a: seq<nat>): seq<Tag>
    decreases body
  {
    match body
    case None => []
    case Some(s) => TagsOf(s, a)
  }

  function TagsOfAll(body: seq<Stmt>, a: seq<nat>): seq<Tag>
    decreases body
  {
    if body == [] then []
    else
      var n := |body| - 1;
      TagsOfAll(body[..n], a) + TagsOf(body[n], a + [n])
  }

  function TagsOfArms(arms: seq<Arm>, default: bool, a: seq<nat>): seq<Tag>
    decreases arms
  {
    if arms == [] then []
    else
      var n := |arms| - 1;
      TagsOfArms(arms[..n], default, a) + TagsOfArm(arms[n], n, default, a)
  }

  function TagsOfArm(arm: Arm, k: nat, default: bool, a: seq<nat>): seq<Tag>
    decreases arm
  {
    if arm.isDefault == default then [Branch(a, k, !default)] + TagsOfOpt(arm.body, a + [k]) else []
  }

  /** A branch of an if and a plain arm of a case weigh 1, all other blocks 0. */
  function WeightOf(t: Tag): nat {
    if t.Branch? && t.plain then 1 else 0
  }

  function WeightsOf(ts: seq<Tag>): (ws: seq<nat>)
    ensures |ws| == |ts|
  {
    seq(|ts|, k requires 0 <= k < |ts| => WeightOf(ts[k]))
  }

  /** From weights `before`, blocks with these tags have been added. */
  predicate Weighed(before: seq<nat>, after: seq<nat>, ts: seq<Tag>) {
    after == before + WeightsOf(ts)
  }

  lemma WeighedTwice(w0: seq<nat>, w1: seq<nat>, w2: seq<nat>, ts: seq<Tag>, us: seq<Tag>)
    requires Weighed(w0, w1, ts) && Weighed(w1, w2, us)
    ensures Weighed(w0, w2, ts + us)
  {
    assert WeightsOf(ts + us) == WeightsOf(ts) + WeightsOf(us);
  }

  // ----- the built graph has these blocks, with these weights -----

  lemma {:induction false} EmitWeighs(g: Cfg, s: Stmt, a: seq<nat>)
    requires g.Ok()
    ensures Weighed(g.weight, Emit(g, s).weight, TagsOf(s, a))
    decreases s, 2
  {
    match s
    case Simple => assert TagsOf(s, a) == [];
    case Block(body) => EmitAllWeighs(g, body, a);
    case If(_, _) => IfWeighs(g, s, a);
    case Case(_) => CaseWeighs(g, s, a);
  }

  lemma {:induction false} ArmWeighs(g: Cfg, b: nat, body: Option<Stmt>, exit: nat, a: seq<nat>)
    requires g.Ok() && b < g.Size() && exit < g.Size()
    ensures Weighed(g.weight, EmitArm(g, b, body, exit).weight, TagsOfOpt(body, a))
    decreases body
  {
    if body.Some? {
      EmitWeighs(Enter(g, b), body.value, a);
    }
  }

  lemma {:induction false} EmitAllWeighs(g: Cfg, body: seq<Stmt>, a: seq<nat>)
    requires g.Ok()
    ensures Weighed(g.weight, EmitAll(g, body).weight, TagsOfAll(body, a))
    decreases body
  {
    hide Weighed;
    if body == [] {
      NothingWeighed(g.weight);
    } else {
      var n := |body| - 1;
      var g1 := EmitAll(g, body[..n]);
      EmitAllWeighs(g, body[..n], a);
      EmitWeighs(g1, body[n], a + [n]);
      WeighedTwice(g.weight, g1.weight, Emit(g1, body[n]).weight, TagsOfAll(body[..n], a), TagsOf(body[n], a + [n]));
    }
  }

  lemma NothingWeighed(w: seq<nat>)
    ensures Weighed(w, w, [])
  {
  }

  lemma IfBlocksWeigh(g: Cfg, a: seq<nat>)
    requires g.Ok()
    ensures Weighed(g.weight, IfBlocks(g).weight, [Branch(a, 0, true), Branch(a, 1, true), Exit(a)])
  {
    assert IfBlocks(g).weight == g.weight + [1, 1, 0];
    assert WeightsOf([Branch(a, 0, true), Branch(a, 1, true), Exit(a)]) == [1, 1, 0];
  }

  lemma {:induction false} IfWeighs(g: Cfg, s: Stmt, a: seq<nat>)
    requires g.Ok() && s.If?
    ensures Weighed(g.weight, Emit(g, s).weight, TagsOf(s, a))
    decreases s, 1
  {
    hide Weighed;
    hide IfBlocks, WeightsOf;
    var n, own := g.Size(), [Branch(a, 0, true), Branch(a, 1, true), Exit(a)];
    var g1 := IfBlocks(g);
    var g2 := EmitArm(g1, n, s.thn, n + 2);
    var g3 := EmitArm(g2, n + 1, s.els, n + 2);
    IfBlocksWeigh(g, a);
    ArmWeighs(g1, n, s.thn, n + 2, a + [0]);
    WeighedTwice(g.weight, g1.weight, g2.weight, own, TagsOfOpt(s.thn, a + [0]));
    ArmWeighs(g2, n + 1, s.els, n + 2, a + [1]);
    WeighedTwice(g.weight, g2.weight, g3.weight, own + TagsOfOpt(s.thn, a + [0]), TagsOfOpt(s.els, a + [1]));
    assert Emit(g, s).weight == g3.weight;
  }

  lemma CaseBlockWeighs(g: Cfg, a: seq<nat>)
    requires g.Ok()
    ensures Weighed(g.weight, AddBlock(g, 0).weight, [Exit(a)])
  {
    assert WeightsOf([Exit(a)]) == [0];
  }

  lemma {:induction false} CaseWeighs(g: Cfg, s: Stmt, a: seq<nat>)
    requires g.Ok() && s.Case?
    ensures Weighed(g.weight, Emit(g, s).weight, TagsOf(s, a))
    decreases s, 1
  {
    hide Weighed;
    var n, g0 := g.Size(), AddBlock(g, 0);
    var g1 := EmitArms(g0, s.arms, false, g.top, n);
    var g2 := EmitArms(g1, s.arms, true, g.top, n);
    CaseBlockWeighs(g, a);
    ArmsWeigh(g0, s.arms, false, g.top, n, a);
    WeighedTwice(g.weight, g0.weight, g1.weight, [Exit(a)], TagsOfArms(s.arms, false, a));
    ArmsWeigh(g1, s.arms, true, g.top, n, a);
    WeighedTwice(g.weight, g1.weight, g2.weight, [Exit(a)] + TagsOfArms(s.arms, false, a), TagsOfArms(s.arms, true, a));
    assert Emit(g, s).weight == g2.weight;
  }

  lemma {:induction false} ArmsWeigh(g: Cfg, arms: seq<Arm>, default: bool, start: nat, exit: nat, a: seq<nat>)
    requires g.Ok() && start < g.Size() && exit < g.Size()
    ensures Weighed(g.weight, EmitArms(g, arms, default, start, exit).weight, TagsOfArms(arms, default, a))
    decreases arms
  {
    hide Weighed;
    if arms == [] {
      NothingWeighed(g.weight);
    } else {
      var n := |arms| - 1;
      var g1 := EmitArms(g, arms[..n], default, start, exit);
      ArmsWeigh(g, arms[..n], default, start, exit, a);
      CaseArmWeighs(g1, arms[n], n, default, start, exit, a);
      WeighedTwice(g.weight, g1.weight, EmitCaseArm(g1, arms[n], default, start, exit).weight,
                   TagsOfArms(arms[..n], default, a), TagsOfArm(arms[n], n, default, a));
    }
  }

  lemma ForkWeighs(g: Cfg, start: nat, a: seq<nat>, k: nat, default: bool)
    requires g.Ok() && start < g.Size()
    ensures Weighed(g.weight, Fork(Enter(g, start), if default then 0 else 1).weight, [Branch(a, k, !default)])
  {
    assert WeightsOf([Branch(a, k, !default)]) == [if default then 0 else 1];
  }

  lemma {:induction false} CaseArmWeighs(g: Cfg, arm: Arm, k: nat, default: bool, start: nat, exit: nat, a: seq<nat>)
    requires g.Ok() && start < g.Size() && exit < g.Size()
    ensures Weighed(g.weight, EmitCaseArm(g, arm, default, start, exit).weight, TagsOfArm(arm, k, default, a))
    decreases arm
  {
    hide Weighed;
    if arm.isDefault == default {
      var g1 := Fork(Enter(g, start), if default then 0 else 1);
      ForkWeighs(g, start, a, k, default);
      ArmWeighs(g1, g.Size(), arm.body, exit, a + [k]);
      WeighedTwice(g.weight, g1.weight, EmitArm(g1, g.Size(), arm.body, exit).weight, [Branch(a, k, !default)],
                   TagsOfOpt(arm.body, a + [k]));
    } else {
      NothingWeighed(g.weight);
    }
  }

  lemma SizeOf(g: Cfg, s: Stmt, a: seq<nat>)
    requires g.Ok()
    ensures Emit(g, s).Size() == g.Size() + |TagsOf(s, a)|
  {
    EmitWeighs(g, s, a);
  }

  lemma SizeOfAll(g: Cfg, body: seq<Stmt>, a: seq<nat>)
    requires g.Ok()
    ensures EmitAll(g, body).Size() == g.Size() + |TagsOfAll(body, a)|
  {
    EmitAllWeighs(g, body, a);
  }

  lemma SizeOfOpt(g: Cfg, b: nat, body: Option<Stmt>, exit: nat, a: seq<nat>)
    requires g.Ok() && b < g.Size() && exit < g.Size()
    ensures EmitArm(g, b, body, exit).Size() == g.Size() + |TagsOfOpt(body, a)|
  {
    ArmWeighs(g, b, body, exit, a);
  }

  lemma SizeOfArms(g: Cfg, arms: seq<Arm>, default: bool, start: nat, exit: nat, a: seq<nat>)
    requires g.Ok() && start < g.Size() && exit < g.Size()
    ensures EmitArms(g, arms, default, start, exit).Size() == g.Size() + |TagsOfArms(arms, default, a)|
  {
    ArmsWeigh(g, arms, default, start, exit, a);
  }

  lemma AllSnoc(g: Cfg, body: seq<Stmt>, a: seq<nat>)
    requires g.Ok() && body != []
    ensures var n := |body| - 1;
            && EmitAll(g, body) == Emit(EmitAll(g, body[..n]), body[n])
            && TagsOfAll(body, a) == TagsOfAll(body[..n], a) + TagsOf(body[n], a + [n])
  {
  }

  lemma LastArm(g: Cfg, arms: seq<Arm>, default: bool, start: nat, exit: nat, a: seq<nat>)
    requires g.Ok() && start < g.Size() && exit < g.Size() && arms != []
    ensures var n := |arms| - 1;
            && EmitArms(g, arms, default, start, exit)
            == EmitCaseArm(EmitArms(g, arms[..n], default, start, exit), arms[n], default, start, exit)
            && TagsOfArms(arms, default, a) == TagsOfArms(arms[..n], default, a) + TagsOfArm(arms[n], n, default, a)
  {
  }

  lemma IfEmits(g: Cfg, s: Stmt, a: seq<nat>)
    requires g.Ok() && s.If?
    ensures var n := g.Size();
            && Emit(g, s) == Enter(EmitArm(EmitArm(IfBlocks(g), n, s.thn, n + 2), n + 1, s.els, n + 2), n + 2)
            && TagsOf(s, a) == [Branch(a, 0, true), Branch(a, 1, true), Exit(a)] + TagsOfOpt(s.thn, a + [0])
                             + TagsOfOpt(s.els, a + [1])
  {
    hide EmitArm, IfBlocks, TagsOfOpt;
  }

  // ----- segments of paths -----

  function Prev(u: nat, w: seq<nat>, k: nat): nat
    requires k <= |w|
  {
    if k == 0 then u else w[k - 1]
  }

  /** Each block of w is entered from the one before it, the first from u. */
  ghost predicate Links(g: Cfg, u: nat, w: seq<nat>) {
    forall k | 0 <= k < |w| :: Step(g, u, w, k)
  }

  predicate Step(g: Cfg, u: nat, w: seq<nat>, k: nat)
    requires k < |w|
  {
    Linked(g, Prev(u, w, k), w[k])
  }

  predicate Linked(g: Cfg, u: nat, v: nat) {
    v < |g.preds| && u in g.preds[v]
  }

  /** From block u through the blocks of w to v. */
  ghost predicate Seg(g: Cfg, u: nat, w: seq<nat>, v: nat) {
    Links(g, u, w) && v == Prev(u, w, |w|)
  }

  predicate In(w: seq<nat>, lo: nat, hi: nat) {
    forall k | 0 <= k < |w| :: lo <= w[k] < hi
  }

  function TagsAt(t: seq<Tag>, w: seq<nat>): (x: seq<Tag>)
    requires In(w, 0, |t|)
    ensures |x| == |w|
  {
    seq(|w|, k requires 0 <= k < |w| => t[w[k]])
  }

  type Language = seq<Tag> -> bool

  /** The segments from u to v through the blocks lo..hi-1 are, by their tags, exactly the members of L. */
  ghost predicate Realizes(g: Cfg, u: nat, v: nat, lo: nat, hi: nat, t: seq<Tag>, L: Language) {
    && hi <= |t|
    && (forall w | In(w, lo, hi) && Seg(g, u, w, v) :: L(TagsAt(t, w)))
    && (forall x | L(x) :: exists w :: Spells(g, u, w, v, lo, hi, t, x))
  }

  ghost predicate Spells(g: Cfg, u: nat, w: seq<nat>, v: nat, lo: nat, hi: nat, t: seq<Tag>, x: seq<Tag>) {
    hi <= |t| && In(w, lo, hi) && Seg(g, u, w, v) && TagsAt(t, w) == x
  }

  /** What is added later changes neither the segments nor the tags of older blocks. */
  lemma StillRealizes(g: Cfg, g': Cfg, exit: Option<nat>, u: nat, v: nat, lo: nat, hi: nat, t: seq<Tag>,
                      t': seq<Tag>, L: Language)
    requires Keeps(g, g', exit) && hi <= g.Size() && (exit.Some? ==> !(lo <= exit.value < hi))
    requires t <= t' && Realizes(g, u, v, lo, hi, t, L)
    ensures Realizes(g', u, v, lo, hi, t', L)
  {
    forall w | In(w, lo, hi) ensures (Seg(g, u, w, v) <==> Seg(g', u, w, v)) && TagsAt(t', w) == TagsAt(t, w) {
      assert forall k | 0 <= k < |w| :: Step(g, u, w, k) == Step(g', u, w, k);
    }
    forall x | L(x) ensures exists w :: Spells(g', u, w, v, lo, hi, t', x) {
      var w :| Spells(g, u, w, v, lo, hi, t, x);
      assert Spells(g', u, w, v, lo, hi, t', x);
    }
  }

  /** Blocks below n1 are entered from below n1, and the others from there only through `m`. */
  ghost predicate Layered(g: Cfg, n1: nat, m: nat) {
    forall u: nat, v: nat | Linked(g, u, v) :: if v < n1 then u < n1 else u >= n1 || u == m
  }

  lemma LinksCut(g: Cfg, u: nat, w: seq<nat>, i: nat)
    requires Links(g, u, w) && i <= |w|
    ensures Links(g, u, w[..i]) && Links(g, Prev(u, w, i), w[i..])
  {
    var w1, w2, m := w[..i], w[i..], Prev(u, w, i);
    forall k | 0 <= k < |w1| ensures Step(g, u, w1, k) {
      assert Step(g, u, w, k);
    }
    forall k | 0 <= k < |w2| ensures Step(g, m, w2, k) {
      assert Step(g, u, w, i + k);
    }
  }

  /** A segment leaves the older blocks at most once, from `m`. */
  lemma {:induction false} SplitPoint(g: Cfg, u: nat, w: seq<nat>, n1: nat, m: nat) returns (i: nat)
    requires u < n1 && Links(g, u, w) && Layered(g, n1, m)
    ensures i <= |w| && (forall k | 0 <= k < i :: w[k] < n1) && (forall k | i <= k < |w| :: w[k] >= n1)
    ensures i < |w| ==> Prev(u, w, i) == m
    decreases |w|
  {
    if w == [] {
      i := 0;
    } else {
      var n := |w| - 1;
      LinksCut(g, u, w, n);
      i := SplitPoint(g, u, w[..n], n1, m);
      assert Step(g, u, w, n);
      if i == n && w[n] < n1 {
        i := |w|;
      }
    }
  }

  lemma SegCut(g: Cfg, u: nat, w: seq<nat>, v: nat, i: nat)
    requires Seg(g, u, w, v) && i <= |w|
    ensures Seg(g, u, w[..i], Prev(u, w, i)) && Seg(g, Prev(u, w, i), w[i..], v)
  {
    LinksCut(g, u, w, i);
  }

  lemma SegCat(g: Cfg, u: nat, w1: seq<nat>, m: nat, w2: seq<nat>, v: nat)
    requires Seg(g, u, w1, m) && Seg(g, m, w2, v)
    ensures Seg(g, u, w1 + w2, v)
  {
    var w := w1 + w2;
    forall k | 0 <= k < |w| ensures Step(g, u, w, k) {
      if k < |w1| {
        assert Step(g, u, w1, k);
      } else {
        assert Step(g, m, w2, k - |w1|);
      }
    }
  }

  // ----- one part after the other -----

  /** The members of L1 followed by those of L2. */
  ghost predicate Then(L1: Language, L2: Language, x: seq<Tag>) {
    exists i | 0 <= i <= |x| :: L1(x[..i]) && L2(x[i..])
  }

  lemma TagsCut(t: seq<Tag>, w: seq<nat>, i: nat)
    requires In(w, 0, |t|) && i <= |w|
    ensures In(w[..i], 0, |t|) && In(w[i..], 0, |t|)
    ensures TagsAt(t, w[..i]) == TagsAt(t, w)[..i] && TagsAt(t, w[i..]) == TagsAt(t, w)[i..]
  {
  }

  lemma TagsCat(t: seq<Tag>, w1: seq<nat>, w2: seq<nat>)
    requires In(w1, 0, |t|) && In(w2, 0, |t|)
    ensures In(w1 + w2, 0, |t|) && TagsAt(t, w1 + w2) == TagsAt(t, w1) + TagsAt(t, w2)
  {
  }

  /** Two parts, each in its own range of blocks, the second entered only from where the first ends. */
  ghost predicate TwoParts(g: Cfg, u: nat, m: nat, v: nat, n: nat, n1: nat, hi: nat) {
    && u < n <= n1 <= hi && m < n1 && (v == m || v >= n1) && Layered(g, n1, m)
  }

  /** A segment through both parts. */
  lemma SegSplits(g: Cfg, u: nat, m: nat, v: nat, n: nat, n1: nat, hi: nat, w: seq<nat>) returns (i: nat)
    requires TwoParts(g, u, m, v, n, n1, hi) && Seg(g, u, w, v) && In(w, n, hi)
    ensures i <= |w| && In(w[..i], n, n1) && In(w[i..], n1, hi)
    ensures Seg(g, u, w[..i], m) && Seg(g, m, w[i..], v)
  {
    i := SplitPoint(g, u, w, n1, m);
    SegCut(g, u, w, v, i);
    if i == |w| {
      assert v == Prev(u, w, i) && v < n1;
    }
  }

  lemma PartsSpell(g: Cfg, u: nat, m: nat, v: nat, n: nat, n1: nat, hi: nat, t: seq<Tag>, L1: Language, L2: Language,
                   x: seq<Tag>)
    requires Realizes(g, u, m, n, n1, t, L1) && Realizes(g, m, v, n1, hi, t, L2) && Then(L1, L2, x) && n <= n1 <= hi
    ensures exists w :: Spells(g, u, w, v, n, hi, t, x)
  {
    var i :| 0 <= i <= |x| && L1(x[..i]) && L2(x[i..]);
    var w1 :| Spells(g, u, w1, m, n, n1, t, x[..i]);
    var w2 :| Spells(g, m, w2, v, n1, hi, t, x[i..]);
    SegCat(g, u, w1, m, w2, v);
    TagsCat(t, w1, w2);
    assert x[..i] + x[i..] == x;
    assert Spells(g, u, w1 + w2, v, n, hi, t, x);
  }

  lemma PartsMember(g: Cfg, u: nat, m: nat, v: nat, n: nat, n1: nat, hi: nat, t: seq<Tag>, L1: Language, L2: Language,
                    w: seq<nat>)
    requires TwoParts(g, u, m, v, n, n1, hi) && hi <= |t| && In(w, n, hi) && Seg(g, u, w, v)
    requires Realizes(g, u, m, n, n1, t, L1) && Realizes(g, m, v, n1, hi, t, L2)
    ensures Then(L1, L2, TagsAt(t, w))
  {
    var i := SegSplits(g, u, m, v, n, n1, hi, w);
    TagsCut(t, w, i);
    assert L1(TagsAt(t, w)[..i]) && L2(TagsAt(t, w)[i..]);
  }

  lemma PartsRealize(g: Cfg, u: nat, m: nat, v: nat, n: nat, n1: nat, hi: nat, t: seq<Tag>, L1: Language, L2: Language,
                     L: Language)
    requires TwoParts(g, u, m, v, n, n1, hi) && forall x :: L(x) <==> Then(L1, L2, x)
    requires Realizes(g, u, m, n, n1, t, L1) && Realizes(g, m, v, n1, hi, t, L2)
    ensures Realizes(g, u, v, n, hi, t, L)
  {
    hide Then, Seg, Spells;
    forall w | In(w, n, hi) && Seg(g, u, w, v) ensures L(TagsAt(t, w)) {
      PartsMember(g, u, m, v, n, n1, hi, t, L1, L2, w);
    }
    forall x | L(x) ensures exists w :: Spells(g, u, w, v, n, hi, t, x) {
      PartsSpell(g, u, m, v, n, n1, hi, t, L1, L2, x);
    }
  }

  lemma NothingRealizes(g: Cfg, u: nat, n: nat, t: seq<Tag>, L: Language)
    requires n <= |t| && forall x :: L(x) <==> x == []
    ensures Realizes(g, u, u, n, n, t, L)
  {
    forall w | In(w, n, n) ensures |w| == 0 {
      if w != [] {
        NonEmptyRange(w, n, n);
      }
    }
    assert forall x | L(x) :: Spells(g, u, [], u, n, n, t, x);
  }

  lemma NonEmptyRange(w: seq<nat>, lo: nat, hi: nat)
    requires In(w, lo, hi) && w != []
    ensures lo < hi
  {
    assert lo <= w[0] < hi;
  }

  // ----- one arm of several -----

  /** What follows block b: the blocks lo..hi-1, entered only from each other and from b; it ends in z, and through
      these blocks it goes as L says. */
  ghost predicate IsBody(g: Cfg, b: nat, lo: nat, hi: nat, z: nat, t: seq<Tag>, L: Language) {
    && !(lo <= b < hi) && (z == b || lo <= z < hi)
    && (forall x: nat, y: nat | lo <= y < hi && Linked(g, x, y) :: lo <= x < hi || x == b)
    && Realizes(g, b, z, lo, hi, t, L)
  }

  /** An arm: block b, entered only from `start`, and what follows it. */
  ghost predicate IsArm(g: Cfg, start: nat, b: nat, lo: nat, hi: nat, z: nat, t: seq<Tag>, L: Language) {
    && b < |g.preds| && (forall x: nat :: Linked(g, x, b) <==> x == start) && IsBody(g, b, lo, hi, z, t, L)
  }

  /** A segment that ends in an arm has come through its block. */
  lemma {:induction false} BackToBranch(g: Cfg, start: nat, w: seq<nat>, z: nat, b: nat, lo: nat, hi: nat)
    requires Links(g, start, w) && w != [] && w[|w| - 1] == z && (z == b || lo <= z < hi)
    requires start !in w && start != b && !(lo <= start < hi)
    requires forall x: nat :: Linked(g, x, b) <==> x == start
    requires forall x: nat, y: nat | lo <= y < hi && Linked(g, x, y) :: lo <= x < hi || x == b
    ensures w[0] == b && In(w[1..], lo, hi)
    decreases |w|
  {
    var n := |w| - 1;
    assert Step(g, start, w, n);
    if n > 0 {
      assert w[n - 1] in w;
      LinksCut(g, start, w, n);
      BackToBranch(g, start, w[..n], w[n - 1], b, lo, hi);
    }
  }

  /** What an execution through the arm looks like. */
  ghost predicate Through(tag: Tag, end: Tag, L: Language, x: seq<Tag>) {
    |x| >= 2 && x[0] == tag && x[|x| - 1] == end && L(Inside(x))
  }

  lemma ArmSegments(g: Cfg, start: nat, e: nat, n: nat, b: nat, lo: nat, hi: nat, z: nat, t: seq<Tag>, L: Language,
                    w: seq<nat>)
    requires IsArm(g, start, b, lo, hi, z, t, L) && start < n <= b && n <= lo && n <= e
    requires Seg(g, start, w, e) && In(w, n, |t|) && w != [] && Prev(start, w, |w| - 1) == z && z != start
    requires b < |t| && e < |t|
    ensures Through(t[b], t[e], L, TagsAt(t, w))
  {
    var k := |w| - 1;
    assert w[k] == e;
    SegCut(g, start, w, e, k);
    var front := w[..k];
    assert front != [] && front[|front| - 1] == z;
    BackToBranch(g, start, front, z, b, lo, hi);
    SegCut(g, start, front, z, 1);
    assert front[1..] == w[1..k] == Inside(w);
    assert Seg(g, b, Inside(w), z);
    assert TagsAt(t, Inside(w)) == Inside(TagsAt(t, w));
  }

  lemma ArmSpells(g: Cfg, start: nat, e: nat, n: nat, b: nat, lo: nat, hi: nat, z: nat, t: seq<Tag>, L: Language,
                  x: seq<Tag>)
    requires IsArm(g, start, b, lo, hi, z, t, L) && n <= b < |t| && n <= lo && n <= e < |t|
    requires Linked(g, z, e) && Through(t[b], t[e], L, x)
    ensures exists w :: Spells(g, start, w, e, n, |t|, t, x)
  {
    var w1 :| Spells(g, b, w1, z, lo, hi, t, Inside(x));
    var w := [b] + w1 + [e];
    assert Linked(g, start, b);
    assert Seg(g, start, [b], b) && Seg(g, z, [e], e);
    SegCat(g, start, [b], b, w1, z);
    SegCat(g, start, [b] + w1, z, [e], e);
    assert In(w, n, |t|);
    assert TagsAt(t, w) == [t[b]] + Inside(x) + [t[e]] == x;
    assert Spells(g, start, w, e, n, |t|, t, x);
  }

  lemma BodyStays(g: Cfg, g': Cfg, exit: nat, b: nat, lo: nat, hi: nat, z: nat, t: seq<Tag>, t': seq<Tag>, L: Language)
    requires Keeps(g, g', Some(exit)) && !(lo <= exit < hi) && hi <= g.Size() && t <= t'
    requires IsBody(g, b, lo, hi, z, t, L)
    ensures IsBody(g', b, lo, hi, z, t', L)
  {
    StillRealizes(g, g', Some(exit), b, z, lo, hi, t, t', L);
    forall x: nat, y: nat | lo <= y < hi ensures Linked(g', x, y) <==> Linked(g, x, y) {
      assert y < g.Size() && g'.preds[y] == g.preds[y];
    }
  }

  lemma ArmStays(g: Cfg, g': Cfg, exit: nat, start: nat, b: nat, lo: nat, hi: nat, z: nat, t: seq<Tag>, t': seq<Tag>,
                 L: Language)
    requires Keeps(g, g', Some(exit)) && exit != b && !(lo <= exit < hi) && hi <= g.Size() && t <= t'
    requires IsArm(g, start, b, lo, hi, z, t, L)
    ensures IsArm(g', start, b, lo, hi, z, t', L)
  {
    hide IsBody;
    BodyStays(g, g', exit, b, lo, hi, z, t, t', L);
    assert g'.preds[b] == g.preds[b];
    forall x: nat ensures Linked(g', x, b) <==> Linked(g, x, b) {
    }
  }

  // ----- a fork of several arms -----

  /** An arm from the fork at `start` to block e; going through it is a member of L. */
  ghost predicate ArmOf(g: Cfg, start: nat, n: nat, e: nat, b: nat, lo: nat, hi: nat, z: nat, t: seq<Tag>,
                        La: Language, L: Language)
  {
    && IsArm(g, start, b, lo, hi, z, t, La) && n <= b < |t| && n <= lo && e < |t|
    && forall x | Through(t[b], t[e], La, x) :: L(x)
  }

  /** Going through an arm from the fork at `start` to block e is a member of its language. */
  ghost predicate Offers(g: Cfg, start: nat, n: nat, e: nat, b: nat, lo: nat, hi: nat, z: nat, t: seq<Tag>,
                         La: Language, x: seq<Tag>)
  {
    && IsArm(g, start, b, lo, hi, z, t, La) && n <= b < |t| && n <= lo && e < |t|
    && Linked(g, z, e) && Through(t[b], t[e], La, x)
  }

  /** Block e is entered exactly from the ends of arms, and these offer exactly the members of L. */
  ghost predicate IsFork(g: Cfg, start: nat, n: nat, e: nat, t: seq<Tag>, L: Language) {
    && start < n <= e < |t|
    && (forall z: nat | Linked(g, z, e) :: exists b, lo, hi, La :: ArmOf(g, start, n, e, b, lo, hi, z, t, La, L))
    && (forall x | L(x) :: exists b, lo, hi, z, La :: Offers(g, start, n, e, b, lo, hi, z, t, La, x))
  }

  lemma ForkMember(g: Cfg, start: nat, n: nat, e: nat, t: seq<Tag>, L: Language, w: seq<nat>)
    requires IsFork(g, start, n, e, t, L) && In(w, n, |t|) && Seg(g, start, w, e)
    ensures L(TagsAt(t, w))
  {
    var k := |w| - 1;
    assert w != [];
    assert Step(g, start, w, k) && w[k] == e;
    var z := Prev(start, w, k);
    var b: nat, lo: nat, hi: nat, La :| ArmOf(g, start, n, e, b, lo, hi, z, t, La, L);
    assert z != start;
    ArmSegments(g, start, e, n, b, lo, hi, z, t, La, w);
  }

  lemma ForkRealizes(g: Cfg, start: nat, n: nat, e: nat, t: seq<Tag>, L: Language)
    requires IsFork(g, start, n, e, t, L)
    ensures Realizes(g, start, e, n, |t|, t, L)
  {
    forall w | In(w, n, |t|) && Seg(g, start, w, e) ensures L(TagsAt(t, w)) {
      ForkMember(g, start, n, e, t, L, w);
    }
    forall x | L(x) ensures exists w :: Spells(g, start, w, e, n, |t|, t, x) {
      var b: nat, lo: nat, hi: nat, z: nat, La :| Offers(g, start, n, e, b, lo, hi, z, t, La, x);
      ArmSpells(g, start, e, n, b, lo, hi, z, t, La, x);
    }
  }
}
