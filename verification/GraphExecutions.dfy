/** The built graph goes exactly where the statement tree goes. */
module GraphExecutions {
  import opened Basics
  import opened ControlFlow
  import opened FlowPaths
  import opened Executions
  import opened BlockTags

  ghost function LangOf(s: Stmt, a: seq<nat>): Language {
    x => Exec(s, a, x)
  }

  ghost function LangOpt(body: Option<Stmt>, a: seq<nat>): Language {
    x => ExecOpt(body, a, x)
  }

  ghost function LangAll(body: seq<Stmt>, a: seq<nat>): Language {
    x => ExecAll(body, a, x)
  }

  /** From g to g' the statement has added blocks whose segments are its executions. */
  ghost predicate GoesAs(g: Cfg, g': Cfg, t: seq<Tag>, ts: seq<Tag>, L: Language) {
    |t| == g.Size() && |t + ts| == g'.Size() && Realizes(g', g.top, g'.top, g.Size(), g'.Size(), t + ts, L)
  }

  /** Every statement goes as its executions say. */
  lemma {:induction false} EmitGoes(g: Cfg, s: Stmt, a: seq<nat>, t: seq<Tag>)
    requires g.Ok() && g.Mirrored() && |t| == g.Size()
    ensures GoesAs(g, Emit(g, s), t, TagsOf(s, a), LangOf(s, a))
    decreases s, 2
  {
    match s
    case Simple =>
      assert t + TagsOf(s, a) == t;
      NothingRealizes(g, g.top, g.Size(), t, LangOf(s, a));
    case Block(body) =>
      EmitAllGoes(g, body, a, t);
      SameLanguage(Emit(g, s), g.top, Emit(g, s).top, g.Size(), Emit(g, s).Size(), t + TagsOf(s, a),
                   LangAll(body, a), LangOf(s, a));
    case If(_, _) => IfGoes(g, s, a, t);
    case Case(_) => CaseGoes(g, s, a, t);
  }

  lemma SameLanguage(g: Cfg, u: nat, v: nat, lo: nat, hi: nat, t: seq<Tag>, L: Language, L': Language)
    requires Realizes(g, u, v, lo, hi, t, L) && forall x :: L(x) <==> L'(x)
    ensures Realizes(g, u, v, lo, hi, t, L')
  {
  }

  // ----- statements one after the other -----

  lemma GrownIsLayered(g1: Cfg, g2: Cfg)
    requires g1.Ok() && Grown(g1, g2)
    ensures Layered(g2, g1.Size(), g1.top)
  {
    forall u: nat, v: nat | Linked(g2, u, v)
      ensures if v < g1.Size() then u < g1.Size() else u >= g1.Size() || u == g1.top
    {
      if v >= g1.Size() {
        assert FromNewOr(g1, g2.preds[v]);
      } else {
        assert g2.preds[v] == g1.preds[v];
      }
    }
  }

  lemma {:induction false} EmitAllGoes(g: Cfg, body: seq<Stmt>, a: seq<nat>, t: seq<Tag>)
    requires g.Ok() && g.Mirrored() && |t| == g.Size()
    ensures GoesAs(g, EmitAll(g, body), t, TagsOfAll(body, a), LangAll(body, a))
    decreases body
  {
    if body == [] {
      assert t + TagsOfAll(body, a) == t;
      NothingRealizes(g, g.top, g.Size(), t, LangAll(body, a));
    } else {
      var n := |body| - 1;
      var g1 := EmitAll(g, body[..n]);
      EmitAllGrow(g, body[..n]);
      EmitGrows(g1, body[n]);
      EmitAllGoes(g, body[..n], a, t);
      EmitGoes(g1, body[n], a + [n], t + TagsOfAll(body[..n], a));
      AllSnoc(g, body, a);
      ThenIsAll(body, a);
      GoesOn(g, g1, EmitAll(g, body), t, TagsOfAll(body[..n], a), TagsOf(body[n], a + [n]), LangAll(body[..n], a),
             LangOf(body[n], a + [n]), LangAll(body, a));
    }
  }

  /** A part that goes as L1 and, after it, one that goes as L2. */
  lemma GoesOn(g: Cfg, g1: Cfg, g2: Cfg, t: seq<Tag>, ts: seq<Tag>, us: seq<Tag>, L1: Language, L2: Language,
               L: Language)
    requires g.Ok() && Grown(g, g1) && NewOr(g, g1.top) && Grown(g1, g2) && NewOr(g1, g2.top)
    requires GoesAs(g, g1, t, ts, L1) && GoesAs(g1, g2, t + ts, us, L2)
    requires forall x :: L(x) <==> Then(L1, L2, x)
    ensures GoesAs(g, g2, t, ts + us, L)
  {
    hide Realizes, TwoParts, Layered, Then;
    assert t + (ts + us) == t + ts + us;
    assert Keeps(g1, g2, None);
    StillRealizes(g1, g2, None, g.top, g1.top, g.Size(), g1.Size(), t + ts, t + ts + us, L1);
    AreTwoParts(g, g1, g2);
    PartsRealize(g2, g.top, g1.top, g2.top, g.Size(), g1.Size(), g2.Size(), t + ts + us, L1, L2, L);
  }

  lemma AreTwoParts(g: Cfg, g1: Cfg, g2: Cfg)
    requires g.Ok() && Grown(g, g1) && Grown(g1, g2) && NewOr(g1, g2.top)
    ensures TwoParts(g2, g.top, g1.top, g2.top, g.Size(), g1.Size(), g2.Size())
  {
    GrownIsLayered(g1, g2);
  }

  lemma ThenIsAll(body: seq<Stmt>, a: seq<nat>)
    requires body != []
    ensures var n := |body| - 1;
            forall x :: LangAll(body, a)(x) <==> Then(LangAll(body[..n], a), LangOf(body[n], a + [n]), x)
  {
    var n := |body| - 1;
    forall x ensures ExecAll(body, a, x) <==> Then(LangAll(body[..n], a), LangOf(body[n], a + [n]), x) {
      if ExecAll(body, a, x) {
        var i :| 0 <= i <= |x| && ExecAll(body[..n], a, x[..i]) && Exec(body[n], a + [n], x[i..]);
        assert LangAll(body[..n], a)(x[..i]) && LangOf(body[n], a + [n])(x[i..]);
      }
      if Then(LangAll(body[..n], a), LangOf(body[n], a + [n]), x) {
        var i :| 0 <= i <= |x| && LangAll(body[..n], a)(x[..i]) && LangOf(body[n], a + [n])(x[i..]);
        assert ExecAll(body[..n], a, x[..i]) && Exec(body[n], a + [n], x[i..]);
      }
    }
  }

  // ----- what follows a branch block -----

  /** The graph when a branch has been emitted, before its end leads to the exit. */
  function Inner(g: Cfg, b: nat, body: Option<Stmt>): (g': Cfg)
    requires g.Ok() && b < g.Size()
    ensures g'.Ok() && g'.Size() >= g.Size()
  {
    match body
    case None => Enter(g, b)
    case Some(s) => Emit(Enter(g, b), s)
  }

  lemma ArmIsInner(g: Cfg, b: nat, body: Option<Stmt>, exit: nat)
    requires g.Ok() && g.Mirrored() && b < g.Size() && exit < g.Size()
    ensures var inner := Inner(g, b, body);
            && EmitArm(g, b, body, exit) == Join(inner, exit)
            && Grown(Enter(g, b), inner) && NewOr(Enter(g, b), inner.top)
            && inner.preds[exit] == g.preds[exit]
  {
    assert Enter(g, b).Mirrored();
    if body.Some? {
      EmitGrows(Enter(g, b), body.value);
    }
  }

  /** The end of a branch joins the predecessors of the exit, and no other older block gets a new one. */
  lemma ArmLinksExit(g: Cfg, b: nat, body: Option<Stmt>, exit: nat)
    requires g.Ok() && g.Mirrored() && b < g.Size() && exit < g.Size()
    ensures EmitArm(g, b, body, exit).preds[exit] == g.preds[exit] + {Inner(g, b, body).top}
    ensures Keeps(g, EmitArm(g, b, body, exit), Some(exit)) && EmitArm(g, b, body, exit).Mirrored()
  {
    ArmIsInner(g, b, body, exit);
    ArmKeeps(g, b, body, exit);
  }

  lemma {:induction false} InnerGoes(g: Cfg, b: nat, body: Option<Stmt>, a: seq<nat>, t: seq<Tag>)
    requires g.Ok() && g.Mirrored() && b < g.Size() && |t| == g.Size()
    ensures var inner, t' := Inner(g, b, body), t + TagsOfOpt(body, a);
            |t'| == inner.Size() && IsBody(inner, b, g.Size(), inner.Size(), inner.top, t', LangOpt(body, a))
    decreases body, 0
  {
    hide Realizes, LangOf;
    var inner, t' := Inner(g, b, body), t + TagsOfOpt(body, a);
    assert Enter(g, b).Mirrored();
    match body
    case None =>
      assert t' == t;
      NothingRealizes(inner, b, g.Size(), t, LangOpt(body, a));
      InnerIsBody(g, b, inner);
    case Some(s) =>
      EmitGoes(Enter(g, b), s, a, t);
      EmitGrows(Enter(g, b), s);
      OptLanguage(s, a);
      SameLanguage(inner, b, inner.top, g.Size(), inner.Size(), t', LangOf(s, a), LangOpt(body, a));
      InnerIsBody(g, b, inner);
  }

  lemma OptLanguage(s: Stmt, a: seq<nat>)
    ensures forall x :: LangOf(s, a)(x) <==> LangOpt(Some(s), a)(x)
  {
  }

  /** What a branch adds is what follows its block. */
  lemma {:induction false} ArmGoes(g: Cfg, b: nat, body: Option<Stmt>, exit: nat, a: seq<nat>, t: seq<Tag>)
    requires g.Ok() && g.Mirrored() && b < g.Size() && exit < g.Size() && |t| == g.Size()
    ensures var g', t' := EmitArm(g, b, body, exit), t + TagsOfOpt(body, a);
            |t'| == g'.Size() && IsBody(g', b, g.Size(), g'.Size(), Inner(g, b, body).top, t', LangOpt(body, a))
    decreases body, 1
  {
    hide IsBody, Inner, TagsOfOpt;
    var inner, t' := Inner(g, b, body), t + TagsOfOpt(body, a);
    ArmIsInner(g, b, body, exit);
    InnerGoes(g, b, body, a, t);
    JoinKeepsBody(inner, exit, b, g.Size(), inner.Size(), inner.top, t', LangOpt(body, a));
  }

  lemma InnerIsBody(g: Cfg, b: nat, inner: Cfg)
    requires g.Ok() && b < g.Size() && Grown(Enter(g, b), inner)
    ensures forall x: nat, y: nat | g.Size() <= y < inner.Size() && Linked(inner, x, y) ::
              g.Size() <= x < inner.Size() || x == b
  {
    forall x: nat, y: nat | g.Size() <= y < inner.Size() && Linked(inner, x, y)
      ensures g.Size() <= x < inner.Size() || x == b
    {
      assert FromNewOr(Enter(g, b), inner.preds[y]);
    }
  }

  lemma JoinKeepsBody(g: Cfg, exit: nat, b: nat, lo: nat, hi: nat, z: nat, t: seq<Tag>, L: Language)
    requires g.Ok() && exit < g.Size() && exit < lo && hi <= g.Size() && IsBody(g, b, lo, hi, z, t, L)
    ensures IsBody(Join(g, exit), b, lo, hi, z, t, L)
  {
    hide IsBody;
    assert Keeps(g, Join(g, exit), Some(exit));
    BodyStays(g, Join(g, exit), exit, b, lo, hi, z, t, t, L);
  }

  // ----- ifs -----

  /** The two arms of an if, in the finished graph. */
  ghost predicate IfArms(g: Cfg, start: nat, n: nat, m: nat, z1: nat, z2: nat, t: seq<Tag>, s: Stmt, a: seq<nat>)
    requires s.If?
  {
    && g.Ok() && start < n && n + 3 <= m <= g.Size() == |t|
    && g.preds[n] == g.preds[n + 1] == {start} && g.preds[n + 2] == {z1, z2}
    && IsBody(g, n, n + 3, m, z1, t, LangOpt(s.thn, a + [0]))
    && IsBody(g, n + 1, m, g.Size(), z2, t, LangOpt(s.els, a + [1]))
    && t[n] == Branch(a, 0, true) && t[n + 1] == Branch(a, 1, true) && t[n + 2] == Exit(a)
  }

  lemma OnlyFrom(g: Cfg, start: nat, b: nat, lo: nat, hi: nat, z: nat, t: seq<Tag>, L: Language)
    requires b < |g.preds| && g.preds[b] == {start} && IsBody(g, b, lo, hi, z, t, L)
    ensures IsArm(g, start, b, lo, hi, z, t, L)
  {
  }

  /** An execution of an if goes through one of its two arms. */
  lemma IfThrough(s: Stmt, a: seq<nat>)
    requires s.If?
    ensures var t, f, e := Branch(a, 0, true), Branch(a, 1, true), Exit(a);
            forall x :: LangOf(s, a)(x) <==>
              (Through(t, e, LangOpt(s.thn, a + [0]), x) || Through(f, e, LangOpt(s.els, a + [1]), x))
  {
  }

  lemma IfIsFork(g: Cfg, start: nat, n: nat, m: nat, z1: nat, z2: nat, t: seq<Tag>, s: Stmt, a: seq<nat>)
    requires s.If? && IfArms(g, start, n, m, z1, z2, t, s, a)
    ensures IsFork(g, start, n, n + 2, t, LangOf(s, a))
  {
    hide IsArm, IsBody, LangOf, LangOpt, Through;
    var e, L, L1, L2 := n + 2, LangOf(s, a), LangOpt(s.thn, a + [0]), LangOpt(s.els, a + [1]);
    IfThrough(s, a);
    OnlyFrom(g, start, n, n + 3, m, z1, t, L1);
    OnlyFrom(g, start, n + 1, m, g.Size(), z2, t, L2);
    assert ArmOf(g, start, n, e, n, n + 3, m, z1, t, L1, L);
    assert ArmOf(g, start, n, e, n + 1, m, g.Size(), z2, t, L2, L);
    forall x | L(x) ensures exists b, lo, hi, z, La :: Offers(g, start, n, e, b, lo, hi, z, t, La, x) {
      if Through(t[n], t[e], L1, x) {
        assert Offers(g, start, n, e, n, n + 3, m, z1, t, L1, x);
      } else {
        assert Offers(g, start, n, e, n + 1, m, g.Size(), z2, t, L2, x);
      }
    }
  }

  lemma IfBlocksLinks(g: Cfg)
    requires g.Ok() && g.Mirrored()
    ensures IfBlocks(g).preds == g.preds + [{g.top}, {g.top}, {}] && IfBlocks(g).Mirrored()
  {
    IfBlocksShape(g);
  }

  /** Where the links to the three blocks of an if come from. */
  lemma IfLinks(g1: Cfg, n: nat, s: Stmt, start: nat)
    requires g1.Ok() && g1.Mirrored() && s.If? && g1.Size() == n + 3
    requires g1.preds[n] == g1.preds[n + 1] == {start} && g1.preds[n + 2] == {}
    ensures var g2, g3 := EmitArm(g1, n, s.thn, n + 2), Branches(g1, n, s);
            && g2.Mirrored() && Keeps(g2, g3, Some(n + 2))
            && g3.preds[n] == g3.preds[n + 1] == {start}
            && g3.preds[n + 2] == {Inner(g1, n, s.thn).top, Inner(g2, n + 1, s.els).top}
  {
    hide EmitArm, Inner;
    ArmLinksExit(g1, n, s.thn, n + 2);
    ArmLinksExit(EmitArm(g1, n, s.thn, n + 2), n + 1, s.els, n + 2);
  }

  /** The body of an arm is not disturbed by what is emitted next. */
  lemma FirstBodyStays(g2: Cfg, g3: Cfg, n: nat, z: nat, t2: seq<Tag>, t3: seq<Tag>, L: Language)
    requires Keeps(g2, g3, Some(n + 2)) && t2 <= t3 && g2.Size() >= n + 3
    requires IsBody(g2, n, n + 3, g2.Size(), z, t2, L)
    ensures IsBody(g3, n, n + 3, g2.Size(), z, t3, L)
  {
    BodyStays(g2, g3, n + 2, n, n + 3, g2.Size(), z, t2, t3, L);
  }

  lemma {:induction false} BranchesGo(g1: Cfg, n: nat, s: Stmt, start: nat, a: seq<nat>, t1: seq<Tag>)
    requires g1.Ok() && g1.Mirrored() && s.If? && g1.Size() == |t1| == n + 3 && start < n
    requires g1.preds[n] == g1.preds[n + 1] == {start} && g1.preds[n + 2] == {}
    requires t1[n] == Branch(a, 0, true) && t1[n + 1] == Branch(a, 1, true) && t1[n + 2] == Exit(a)
    ensures var g2, g3 := EmitArm(g1, n, s.thn, n + 2), Branches(g1, n, s);
            var t3 := t1 + TagsOfOpt(s.thn, a + [0]) + TagsOfOpt(s.els, a + [1]);
            IfArms(g3, start, n, g2.Size(), Inner(g1, n, s.thn).top, Inner(g2, n + 1, s.els).top, t3, s, a)
    decreases s, 0
  {
    hide IsBody, EmitArm, Inner, Keeps, TagsOfOpt;
    var g2, g3 := EmitArm(g1, n, s.thn, n + 2), Branches(g1, n, s);
    var t2 := t1 + TagsOfOpt(s.thn, a + [0]);
    IfLinks(g1, n, s, start);
    ArmGoes(g1, n, s.thn, n + 2, a + [0], t1);
    ArmGoes(g2, n + 1, s.els, n + 2, a + [1], t2);
    FirstBodyStays(g2, g3, n, Inner(g1, n, s.thn).top, t2, t2 + TagsOfOpt(s.els, a + [1]), LangOpt(s.thn, a + [0]));
  }

  lemma EnteredIsFork(g: Cfg, b: nat, start: nat, n: nat, m: nat, z1: nat, z2: nat, t: seq<Tag>, s: Stmt, a: seq<nat>)
    requires s.If? && b < |g.preds| && IfArms(g, start, n, m, z1, z2, t, s, a)
    ensures IfArms(Enter(g, b), start, n, m, z1, z2, t, s, a)
  {
    hide IsBody;
    assert Keeps(g, Enter(g, b), Some(n + 2));
    BodyStays(g, Enter(g, b), n + 2, n, n + 3, m, z1, t, t, LangOpt(s.thn, a + [0]));
    BodyStays(g, Enter(g, b), n + 2, n + 1, m, g.Size(), z2, t, t, LangOpt(s.els, a + [1]));
  }

  lemma {:induction false} IfGoes(g: Cfg, s: Stmt, a: seq<nat>, t: seq<Tag>)
    requires g.Ok() && g.Mirrored() && s.If? && |t| == g.Size()
    ensures GoesAs(g, Emit(g, s), t, TagsOf(s, a), LangOf(s, a))
    decreases s, 1
  {
    hide Realizes, IfArms, IsFork, IfBlocks, EmitArm, Inner, LangOf;
    var n, own := g.Size(), [Branch(a, 0, true), Branch(a, 1, true), Exit(a)];
    var g1, g3 := IfBlocks(g), Branches(IfBlocks(g), n, s);
    var g2 := EmitArm(g1, n, s.thn, n + 2);
    var z1, z2, t3 := Inner(g1, n, s.thn).top, Inner(g2, n + 1, s.els).top, t + TagsOf(s, a);
    IfBlocksLinks(g);
    BranchesGo(g1, n, s, g.top, a, t + own);
    assert t3 == t + own + TagsOfOpt(s.thn, a + [0]) + TagsOfOpt(s.els, a + [1]);
    EnteredIsFork(g3, n + 2, g.top, n, g2.Size(), z1, z2, t3, s, a);
    IfIsFork(Emit(g, s), g.top, n, g2.Size(), z1, z2, t3, s, a);
    ForkRealizes(Emit(g, s), g.top, n, n + 2, t3, LangOf(s, a));
    SizeOf(g, s, a);
  }

  // ----- cases -----

  /** Arm k of a case, in the graph g. */
  ghost predicate ArmFor(g: Cfg, start: nat, e: nat, t: seq<Tag>, arms: seq<Arm>, a: seq<nat>, k: nat, b: nat, lo: nat,
                         hi: nat, z: nat)
  {
    && k < |arms| && e < b < |t| && e < lo && hi <= |t| && hi <= |g.preds|
    && t[b] == Branch(a, k, !arms[k].isDefault)
    && IsArm(g, start, b, lo, hi, z, t, LangOpt(arms[k].body, a + [k]))
  }

  /** Every arm of this pass is there and leads to the exit. */
  ghost predicate HasArms(g: Cfg, start: nat, e: nat, t: seq<Tag>, arms: seq<Arm>, default: bool, a: seq<nat>) {
    forall k | 0 <= k < |arms| && arms[k].isDefault == default :: LeadsOn(g, start, e, t, arms, a, k)
  }

  ghost predicate LeadsOn(g: Cfg, start: nat, e: nat, t: seq<Tag>, arms: seq<Arm>, a: seq<nat>, k: nat) {
    exists b, lo, hi, z :: ArmFor(g, start, e, t, arms, a, k, b, lo, hi, z) && Linked(g, z, e)
  }

  /** Block z is the end of some arm. */
  ghost predicate EndsArm(g: Cfg, start: nat, e: nat, t: seq<Tag>, arms: seq<Arm>, a: seq<nat>, z: nat) {
    exists k, b, lo, hi :: ArmFor(g, start, e, t, arms, a, k, b, lo, hi, z)
  }

  lemma ArmForStays(g: Cfg, g': Cfg, start: nat, e: nat, t: seq<Tag>, t': seq<Tag>, arms: seq<Arm>, arms': seq<Arm>,
                    a: seq<nat>, k: nat, b: nat, lo: nat, hi: nat, z: nat)
    requires Keeps(g, g', Some(e)) && t <= t' && arms <= arms'
    requires ArmFor(g, start, e, t, arms, a, k, b, lo, hi, z)
    ensures ArmFor(g', start, e, t', arms', a, k, b, lo, hi, z)
  {
    hide IsArm;
    ArmStays(g, g', e, start, b, lo, hi, z, t, t', LangOpt(arms[k].body, a + [k]));
  }

  lemma LeadsOnStays(g: Cfg, g': Cfg, start: nat, e: nat, t: seq<Tag>, t': seq<Tag>, arms: seq<Arm>, arms': seq<Arm>,
                     a: seq<nat>, k: nat)
    requires Keeps(g, g', Some(e)) && t <= t' && arms <= arms' && LeadsOn(g, start, e, t, arms, a, k)
    requires e < |g.preds| && e < |g'.preds| && g.preds[e] <= g'.preds[e]
    ensures LeadsOn(g', start, e, t', arms', a, k)
  {
    hide ArmFor;
    var b: nat, lo: nat, hi: nat, z: nat :| ArmFor(g, start, e, t, arms, a, k, b, lo, hi, z) && Linked(g, z, e);
    ArmForStays(g, g', start, e, t, t', arms, arms', a, k, b, lo, hi, z);
  }

  lemma EndsArmStays(g: Cfg, g': Cfg, start: nat, e: nat, t: seq<Tag>, t': seq<Tag>, arms: seq<Arm>, arms': seq<Arm>,
                     a: seq<nat>, z: nat)
    requires Keeps(g, g', Some(e)) && t <= t' && arms <= arms' && EndsArm(g, start, e, t, arms, a, z)
    ensures EndsArm(g', start, e, t', arms', a, z)
  {
    hide ArmFor;
    var k: nat, b: nat, lo: nat, hi: nat :| ArmFor(g, start, e, t, arms, a, k, b, lo, hi, z);
    ArmForStays(g, g', start, e, t, t', arms, arms', a, k, b, lo, hi, z);
  }

  /** Where the arm of a case ends. */
  function ArmEnd(g: Cfg, arm: Arm, start: nat): (z: nat)
    requires g.Ok() && start < g.Size()
  {
    Inner(Fork(Enter(g, start), if arm.isDefault then 0 else 1), g.Size(), arm.body).top
  }

  lemma ForkLinks(g: Cfg, start: nat, weight: nat)
    requires g.Ok() && g.Mirrored() && start < g.Size()
    ensures var g1 := Fork(Enter(g, start), weight);
            g1.preds == g.preds + [{start}] && g1.Mirrored() && Keeps(g, g1, None)
  {
    assert Enter(g, start).Mirrored();
    ForkKeeps(Enter(g, start), weight);
    assert (g.preds + [{}])[g.Size() := {start}] == g.preds + [{start}];
    assert {} + {start} == {start};
  }

  /** One arm of a case is there when it has been emitted, and its end is the only new predecessor of the exit. */
  lemma {:induction false} CaseArmGoes(g: Cfg, arms: seq<Arm>, k: nat, start: nat, exit: nat, a: seq<nat>, t: seq<Tag>)
    requires g.Ok() && g.Mirrored() && start < g.Size() && exit < g.Size() && |t| == g.Size() && k < |arms|
    ensures var default, z := arms[k].isDefault, ArmEnd(g, arms[k], start);
            var g', t' := EmitCaseArm(g, arms[k], default, start, exit), t + TagsOfArm(arms[k], k, default, a);
            && |t'| == g'.Size() && g'.preds[exit] == g.preds[exit] + {z}
            && ArmFor(g', start, exit, t', arms, a, k, g.Size(), g.Size() + 1, g'.Size(), z)
    decreases arms[k]
  {
    hide IsBody, Fork, EmitArm, Inner, TagsOfOpt, Keeps;
    var default, n := arms[k].isDefault, g.Size();
    var g1 := Fork(Enter(g, start), if default then 0 else 1);
    var g' := EmitArm(g1, n, arms[k].body, exit);
    var t1, t' := t + [Branch(a, k, !default)], t + TagsOfArm(arms[k], k, default, a);
    assert t' == t1 + TagsOfOpt(arms[k].body, a + [k]);
    ForkLinks(g, start, if default then 0 else 1);
    ArmGoes(g1, n, arms[k].body, exit, a + [k], t1);
    ArmLinksExit(g1, n, arms[k].body, exit);
    KeptLinks(g1, g', exit, n);
    OnlyFrom(g', start, n, n + 1, g'.Size(), ArmEnd(g, arms[k], start), t', LangOpt(arms[k].body, a + [k]));
  }

  lemma KeptLinks(g: Cfg, g': Cfg, exit: nat, b: nat)
    requires Keeps(g, g', Some(exit)) && b < g.Size() && b != exit
    ensures b < g'.Size() && g'.preds[b] == g.preds[b]
  {
  }

  /** The arms of a pass are there, and every new predecessor of the exit is the end of one. */
  ghost predicate ArmsGo(g: Cfg, g': Cfg, arms: seq<Arm>, default: bool, start: nat, e: nat, a: seq<nat>, t: seq<Tag>) {
    && g.Ok() && g'.Ok() && e < g.Size() <= g'.Size() == |t|
    && HasArms(g', start, e, t, arms, default, a)
    && forall z | z in g'.preds[e] :: z in g.preds[e] || EndsArm(g', start, e, t, arms, a, z)
  }

  lemma ArmsGoOn(g: Cfg, g0: Cfg, g': Cfg, start: nat, e: nat, t0: seq<Tag>, t': seq<Tag>, front: seq<Arm>,
                 arms: seq<Arm>, default: bool, a: seq<nat>)
    requires ArmsGo(g, g0, front, default, start, e, a, t0) && Keeps(g0, g', Some(e)) && t0 <= t' && front <= arms
    requires e < |g'.preds| && g0.preds[e] <= g'.preds[e]
    ensures forall k | 0 <= k < |front| && arms[k].isDefault == default :: LeadsOn(g', start, e, t', arms, a, k)
    ensures forall z | z in g0.preds[e] :: z in g.preds[e] || EndsArm(g', start, e, t', arms, a, z)
  {
    hide LeadsOn, EndsArm, Keeps;
    forall k | 0 <= k < |front| && arms[k].isDefault == default ensures LeadsOn(g', start, e, t', arms, a, k) {
      assert front[k] == arms[k];
      LeadsOnStays(g0, g', start, e, t0, t', front, arms, a, k);
    }
    forall z | z in g0.preds[e] ensures z in g.preds[e] || EndsArm(g', start, e, t', arms, a, z) {
      if z !in g.preds[e] {
        EndsArmStays(g0, g', start, e, t0, t', front, arms, a, z);
      }
    }
  }

  lemma {:induction false} EmitArmsGo(g: Cfg, arms: seq<Arm>, default: bool, start: nat, exit: nat, a: seq<nat>,
                                      t: seq<Tag>)
    requires g.Ok() && g.Mirrored() && start < g.Size() && exit < g.Size() && |t| == g.Size()
    ensures var g', t' := EmitArms(g, arms, default, start, exit), t + TagsOfArms(arms, default, a);
            ArmsGo(g, g', arms, default, start, exit, a, t')
    decreases arms, 1
  {
    hide LeadsOn, EndsArm, Keeps;
    if arms == [] {
      assert t + TagsOfArms(arms, default, a) == t;
    } else {
      var n := |arms| - 1;
      var g0, t0 := EmitArms(g, arms[..n], default, start, exit), t + TagsOfArms(arms[..n], default, a);
      EmitArmsGo(g, arms[..n], default, start, exit, a, t);
      EmitArmsKeep(g, arms[..n], default, start, exit);
      LastArm(g, arms, default, start, exit, a);
      LastArmGoes(g, g0, arms, default, start, exit, a, t0);
      assert t + TagsOfArms(arms, default, a) == t0 + TagsOfArm(arms[n], n, default, a);
    }
  }

  lemma {:induction false} LastArmGoes(g: Cfg, g0: Cfg, arms: seq<Arm>, default: bool, start: nat, exit: nat,
                                       a: seq<nat>, t0: seq<Tag>)
    requires g0.Ok() && g0.Mirrored() && start < g0.Size() && arms != []
    requires ArmsGo(g, g0, arms[..|arms| - 1], default, start, exit, a, t0)
    ensures var n := |arms| - 1;
            var g', t' := EmitCaseArm(g0, arms[n], default, start, exit), t0 + TagsOfArm(arms[n], n, default, a);
            ArmsGo(g, g', arms, default, start, exit, a, t')
    decreases arms, 0
  {
    hide ArmFor, EndsArm, Keeps, ArmEnd;
    var n := |arms| - 1;
    var g', t' := EmitCaseArm(g0, arms[n], default, start, exit), t0 + TagsOfArm(arms[n], n, default, a);
    CaseArmKeeps(g0, arms[n], default, start, exit);
    if arms[n].isDefault == default {
      CaseArmGoes(g0, arms, n, start, exit, a, t0);
      var z := ArmEnd(g0, arms[n], start);
      ArmsGoOn(g, g0, g', start, exit, t0, t', arms[..n], arms, default, a);
      assert LeadsOn(g', start, exit, t', arms, a, n) by {
        assert ArmFor(g', start, exit, t', arms, a, n, g0.Size(), g0.Size() + 1, g'.Size(), z) && Linked(g', z, exit);
      }
      EndsLastArm(g', start, exit, t', arms, a, n, g0.Size(), g0.Size() + 1, g'.Size(), z);
    } else {
      ArmsGoOn(g, g0, g', start, exit, t0, t', arms[..n], arms, default, a);
    }
  }

  lemma EndsLastArm(g: Cfg, start: nat, e: nat, t: seq<Tag>, arms: seq<Arm>, a: seq<nat>, k: nat, b: nat, lo: nat,
                    hi: nat, z: nat)
    requires ArmFor(g, start, e, t, arms, a, k, b, lo, hi, z)
    ensures EndsArm(g, start, e, t, arms, a, z)
  {
  }

  /** All arms of a case are there and lead to its exit, and nothing else does. */
  ghost predicate AllArmsGo(g: Cfg, start: nat, e: nat, t: seq<Tag>, arms: seq<Arm>, a: seq<nat>) {
    && start < e < |t| && |t| == |g.preds| && t[e] == Exit(a)
    && (forall k | 0 <= k < |arms| :: LeadsOn(g, start, e, t, arms, a, k))
    && (forall z | z in g.preds[e] :: EndsArm(g, start, e, t, arms, a, z))
  }

  lemma ArmIsOffered(g: Cfg, start: nat, e: nat, t: seq<Tag>, s: Stmt, a: seq<nat>, k: nat, b: nat, lo: nat, hi: nat,
                     z: nat)
    requires s.Case? && e < |t| && t[e] == Exit(a) && ArmFor(g, start, e, t, s.arms, a, k, b, lo, hi, z)
    ensures ArmOf(g, start, e, e, b, lo, hi, z, t, LangOpt(s.arms[k].body, a + [k]), LangOf(s, a))
  {
    hide IsArm;
  }

  lemma CaseIsFork(g: Cfg, start: nat, e: nat, t: seq<Tag>, s: Stmt, a: seq<nat>)
    requires s.Case? && AllArmsGo(g, start, e, t, s.arms, a)
    ensures IsFork(g, start, e, e, t, LangOf(s, a))
  {
    hide IsArm, ArmOf;
    forall z: nat | Linked(g, z, e)
      ensures exists b, lo, hi, La :: ArmOf(g, start, e, e, b, lo, hi, z, t, La, LangOf(s, a))
    {
      assert EndsArm(g, start, e, t, s.arms, a, z);
      var k: nat, b: nat, lo: nat, hi: nat :| ArmFor(g, start, e, t, s.arms, a, k, b, lo, hi, z);
      ArmIsOffered(g, start, e, t, s, a, k, b, lo, hi, z);
    }
    forall x | Exec(s, a, x) ensures exists b, lo, hi, z, La :: Offers(g, start, e, e, b, lo, hi, z, t, La, x) {
      var k :| 0 <= k < |s.arms| && Framed(a, k, !s.arms[k].isDefault, x)
            && ExecOpt(s.arms[k].body, a + [k], Inside(x));
      assert LeadsOn(g, start, e, t, s.arms, a, k);
      var b: nat, lo: nat, hi: nat, z: nat :| ArmFor(g, start, e, t, s.arms, a, k, b, lo, hi, z) && Linked(g, z, e);
      assert Offers(g, start, e, e, b, lo, hi, z, t, LangOpt(s.arms[k].body, a + [k]), x);
    }
  }

  /** Entering the exit of a case does not change where its arms go. */
  lemma BothPassesGo(g0: Cfg, g1: Cfg, g2: Cfg, start: nat, e: nat, t1: seq<Tag>, t2: seq<Tag>, arms: seq<Arm>,
                     a: seq<nat>)
    requires ArmsGo(g0, g1, arms, false, start, e, a, t1) && ArmsGo(g1, g2, arms, true, start, e, a, t2)
    requires Keeps(g1, g2, Some(e)) && t1 <= t2 && start < e && t2[e] == Exit(a)
    requires g0.preds[e] == {} && g1.preds[e] <= g2.preds[e]
    ensures AllArmsGo(Enter(g2, e), start, e, t2, arms, a)
  {
    hide LeadsOn, EndsArm, Keeps;
    var g' := Enter(g2, e);
    EnterKeeps(g1, g2, e, Some(e));
    EnterKeeps(g2, g2, e, Some(e));
    ArmsGoOn(g0, g1, g', start, e, t1, t2, arms, arms, false, a);
    ArmsGoOn(g1, g2, g', start, e, t2, t2, arms, arms, true, a);
  }

  lemma EnterKeeps(g: Cfg, g': Cfg, b: nat, exit: Option<nat>)
    requires g.Ok() && g'.Ok() && (g' == g || Keeps(g, g', exit)) && b < g'.Size()
    ensures Keeps(g, Enter(g', b), exit)
  {
  }

  /** A second pass only adds predecessors to the exit. */
  lemma {:induction false} ArmsAddLinks(g: Cfg, arms: seq<Arm>, default: bool, start: nat, exit: nat)
    requires g.Ok() && g.Mirrored() && start < g.Size() && exit < g.Size()
    ensures g.preds[exit] <= EmitArms(g, arms, default, start, exit).preds[exit]
    decreases arms
  {
    hide Keeps;
    if arms != [] {
      var n := |arms| - 1;
      var g0 := EmitArms(g, arms[..n], default, start, exit);
      ArmsAddLinks(g, arms[..n], default, start, exit);
      EmitArmsKeep(g, arms[..n], default, start, exit);
      LastArm(g, arms, default, start, exit, []);
      if arms[n].isDefault == default {
        CaseArmGoes(g0, arms, n, start, exit, [], seq(g0.Size(), i => Root));
      }
    }
  }

  lemma {:induction false} CaseGoes(g: Cfg, s: Stmt, a: seq<nat>, t: seq<Tag>)
    requires g.Ok() && g.Mirrored() && s.Case? && |t| == g.Size()
    ensures GoesAs(g, Emit(g, s), t, TagsOf(s, a), LangOf(s, a))
    decreases s, 1
  {
    hide Realizes, ArmsGo, AllArmsGo, IsFork, LangOf, EmitArms, TagsOfArms, Keeps;
    var n, g0, t0 := g.Size(), AddBlock(g, 0), t + [Exit(a)];
    var g1, t1 := EmitArms(g0, s.arms, false, g.top, n), t0 + TagsOfArms(s.arms, false, a);
    var g2, t2 := EmitArms(g1, s.arms, true, g.top, n), t1 + TagsOfArms(s.arms, true, a);
    assert g0.Mirrored();
    EmitArmsGo(g0, s.arms, false, g.top, n, a, t0);
    EmitArmsKeep(g0, s.arms, false, g.top, n);
    SizeOfArms(g0, s.arms, false, g.top, n, a);
    EmitArmsGo(g1, s.arms, true, g.top, n, a, t1);
    EmitArmsKeep(g1, s.arms, true, g.top, n);
    ArmsAddLinks(g1, s.arms, true, g.top, n);
    BothPassesGo(g0, g1, g2, g.top, n, t1, t2, s.arms, a);
    CaseIsFork(Emit(g, s), g.top, n, t2, s, a);
    ForkRealizes(Emit(g, s), g.top, n, n, t2, LangOf(s, a));
    assert t2 == t + TagsOf(s, a);
    SizeOf(g, s, a);
  }

  // ----- the whole process -----

  /** The entry, and the blocks of the statement. */
  function ProcessTags(s: Stmt): (t: seq<Tag>)
    ensures |t| == 1 + |TagsOf(s, [])|
  {
    [Root] + TagsOf(s, [])
  }

  /** The paths from the entry to the end are exactly the executions. */
  ghost predicate PathsAreExecutions(g: Cfg, t: seq<Tag>, s: Stmt)
    requires g.Ok()
  {
    && (forall p | Path(g, p, 0, g.top) :: exists x :: Exec(s, [], x) && Shows(t, p, x))
    && (forall x | Exec(s, [], x) :: exists p :: Path(g, p, 0, g.top) && Shows(t, p, x))
  }

  /** Along the path the blocks are the entry and then those of the execution. */
  predicate Shows(t: seq<Tag>, p: seq<nat>, x: seq<Tag>) {
    In(p, 0, |t|) && TagsAt(t, p) == [Root] + x
  }

  /** A branch block is entered only from its dominator, which also dominates the end of its statement. */
  ghost predicate DominatorsFollow(g: Cfg, t: seq<Tag>)
    requires g.Ok()
  {
    && |t| == g.Size()
    && (forall b | 0 <= b < |t| && t[b].Branch? :: EnteredFromDominator(g, b))
    && (forall b, e | 0 <= b < |t| && 0 <= e < |t| && t[b].Branch? && t[e] == Exit(t[b].addr) ::
          g.idom[e] == g.idom[b])
  }

  predicate EnteredFromDominator(g: Cfg, b: nat)
    requires g.Ok() && b < g.Size()
  {
    g.idom[b].Some? && g.preds[b] == {g.idom[b].value}
  }

  /** The graph of a process: each block stands for one place in the statement, weighs what that place weighs, and
      the blocks are passed as the statement is executed. */
  ghost predicate IsGraphOf(g: Cfg, s: Stmt)
    requires g.Ok()
  {
    var t := ProcessTags(s);
    && |t| == g.Size() && Distinct(t) && g.weight == WeightsOf(t)
    && PathsAreExecutions(g, t, s) && DominatorsFollow(g, t)
  }

  /** No link leads back to the entry. */
  lemma PathIsSegment(g: Cfg, p: seq<nat>)
    requires g.Ok() && g.Mirrored() && g.preds[0] == {} && Path(g, p, 0, g.top)
    ensures Seg(g, 0, p[1..], g.top) && In(p[1..], 1, g.Size())
  {
    var w := p[1..];
    forall k | 0 <= k < |w| ensures Step(g, 0, w, k) && 1 <= w[k] < g.Size() {
      assert p[k + 1] in g.succs[p[k]] && Prev(0, w, k) == p[k];
      assert p[k] in g.preds[p[k + 1]];
    }
  }

  lemma SegmentIsPath(g: Cfg, w: seq<nat>)
    requires g.Ok() && g.Mirrored() && Seg(g, 0, w, g.top) && In(w, 1, g.Size())
    ensures Path(g, [0] + w, 0, g.top)
  {
    var p := [0] + w;
    forall a, b | 0 <= a && b == a + 1 < |p| ensures p[b] in g.succs[p[a]] {
      assert Step(g, 0, w, a) && Prev(0, w, a) == p[a];
    }
    assert forall k | 0 < k < |p| :: p[k] == w[k - 1];
  }

  lemma SegmentsShow(t: seq<Tag>, w: seq<nat>)
    requires t != [] && t[0] == Root && In(w, 0, |t|)
    ensures Shows(t, [0] + w, TagsAt(t, w))
  {
    var p := [0] + w;
    forall k | 0 <= k < |p| ensures 0 <= p[k] < |t| {
      if k > 0 {
        assert p[k] == w[k - 1];
      }
    }
  }

  lemma RealizedIsExecuted(g: Cfg, t: seq<Tag>, s: Stmt)
    requires g.Ok() && g.Mirrored() && g.preds[0] == {} && |t| == g.Size() && t[0] == Root
    requires Realizes(g, 0, g.top, 1, g.Size(), t, LangOf(s, []))
    ensures PathsAreExecutions(g, t, s)
  {
    hide Seg, Shows, Path, TagsAt, Exec;
    forall p | Path(g, p, 0, g.top) ensures exists x :: Exec(s, [], x) && Shows(t, p, x) {
      PathIsSegment(g, p);
      StartsAt(g, p);
      SegmentsShow(t, p[1..]);
      assert LangOf(s, [])(TagsAt(t, p[1..]));
    }
    forall x | Exec(s, [], x) ensures exists p :: Path(g, p, 0, g.top) && Shows(t, p, x) {
      assert LangOf(s, [])(x);
      var w :| Spells(g, 0, w, g.top, 1, g.Size(), t, x);
      SegmentIsPath(g, w);
      SegmentsShow(t, w);
    }
  }

  lemma StartsAt(g: Cfg, p: seq<nat>)
    requires g.Ok() && Path(g, p, 0, g.top)
    ensures p == [0] + p[1..]
  {
  }

  lemma DomsAreFollowed(g: Cfg, t: seq<Tag>, D: Current)
    requires g.Ok() && t != [] && t[0] == Root && DomsAt(g, 1, t, D)
    ensures DominatorsFollow(g, t)
  {
    forall b | 0 <= b < |t| && !t[b].Root? ensures DomAt(g, b, t[b], D) {
    }
  }

  /** What is built for a statement is its graph. */
  lemma BuildsItsGraph(s: Stmt)
    ensures IsGraphOf(Emit(Entry(), s), s)
  {
    hide Realizes, PathsAreExecutions, DominatorsFollow, DomsAt;
    var g, t := Emit(Entry(), s), ProcessTags(s);
    EmitGrows(Entry(), s);
    EmitGoes(Entry(), s, [], [Root]);
    RealizedIsExecuted(g, t, s);
    EmitWeighs(Entry(), s, []);
    assert [0] + WeightsOf(TagsOf(s, [])) == WeightsOf(t);
    TagsDistinct(s, []);
    assert Distinct(t);
    var D := EmitDoms(Entry(), s, [], [Root]);
    DomsAreFollowed(g, t, D);
  }
}
