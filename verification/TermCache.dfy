/** Evaluation of shared expression nodes with cached terms: the cache never shows. */
module TermCache {
  import opened Basics
  import opened Terms

  /** How an operator node turns the terms of its children into its own. */
  datatype Kind =
    | Joined(repeat: nat)
    | AllOf
    | Differ
    | Always
    | Unary(op: Op, inverted: bool)
    | Binary(op: Op, toBits: bool, inverted: bool)
    | Logic(op: Op)
    | Ternary

  /** Children are nodes with smaller numbers, so nodes form a graph without cycles, shared at will. */
  datatype Node =
    | NumNode(bits: Bits)
    | TextNode
    | SigNode(sig: Sig, lsb: nat, msb: nat)
    | ArrayNode(sig: Sig, index: Option<Sig>, constant: Bits)
    | OpNode(kind: Kind, kids: seq<nat>)

  predicate ArityOk(kind: Kind, n: nat) {
    match kind
    case Joined(_) => n > 0
    case AllOf => true
    case Differ => n == 2
    case Always => n == 0
    case Unary(_, _) => n == 1
    case Binary(_, _, _) => n == 2
    case Logic(_) => n == 2
    case Ternary => n == 3
  }

  predicate NodesOk(d: Design, nodes: seq<Node>) {
    forall n | 0 <= n < |nodes| ::
      match nodes[n]
      case SigNode(s, _, _) => d.Has(s)
      case OpNode(kind, kids) => ArityOk(kind, |kids|) && forall k | k in kids :: k < n
      case _ => true
  }

  datatype ClkType = Curr | Next

  /** The version counters at the time of an evaluation. */
  datatype Counters = Counters(curr: Sig -> nat, next: Sig -> nat) {
    function At(clk: ClkType, s: Sig): nat {
      if clk == Curr then curr(s) else next(s)
    }
  }

  function Negate(t: Term, inverted: bool): Term {
    if inverted then Apply(Not, [t]) else t
  }

  /** The term of an operator node from those of its children. */
  function Build(kind: Kind, ts: seq<Term>): Term
    requires ArityOk(kind, |ts|)
  {
    match kind
    case Joined(r) => if r != 1 then Apply(Repeat(r), [Apply(Concat, ts)]) else Apply(Concat, ts)
    case AllOf => Apply(And, ts)
    case Differ => Apply(Neq, ts)
    case Always => Apply(True, [])
    case Unary(op, inverted) => Negate(Apply(op, ts), inverted)
    case Binary(op, toBits, inverted) =>
      Negate(if toBits then Apply(BoolToBv, [Apply(op, ts)]) else Apply(op, ts), inverted)
    case Logic(op) => Apply(op, ts)
    case Ternary => Apply(Ite, [Apply(EqOne, [ts[0]]), ts[1], ts[2]])
  }

  /** A missing term makes every term built from it missing. */
  function BuildAll(kind: Kind, ts: seq<Option<Term>>): Option<Term>
    requires ArityOk(kind, |ts|)
  {
    if forall k | 0 <= k < |ts| :: ts[k].Some?
    then Some(Build(kind, seq(|ts|, k requires 0 <= k < |ts| && ts[k].Some? => ts[k].value)))
    else None
  }

  /** The term of a node, computed from scratch. */
  function Plain(d: Design, nodes: seq<Node>, n: nat, c: Counters, clk: ClkType): Option<Term>
    requires NodesOk(d, nodes) && n < |nodes|
  {
    match nodes[n]
    case NumNode(b) => Some(Const(b))
    case TextNode => None
    case SigNode(s, lsb, msb) => Some(SelectTerm(d, s, c.At(clk, s), lsb, msb))
    case ArrayNode(s, index, constant) =>
      var i := if index.Some? then Var(index.value, c.curr(index.value)) else Const(constant);
      Some(Apply(Select, [Var(s, c.At(clk, s)), i]))
    case OpNode(kind, kids) =>
      BuildAll(kind, seq(|kids|, k requires 0 <= k < |kids| && kids[k] in kids => Plain(d, nodes, kids[k], c, clk)))
  }

  /** A signal or an array lies at or under the node. */
  predicate Varies(d: Design, nodes: seq<Node>, n: nat)
    requires NodesOk(d, nodes) && n < |nodes|
  {
    match nodes[n]
    case NumNode(_) => false
    case TextNode => false
    case SigNode(_, _, _) => true
    case ArrayNode(_, _, _) => true
    case OpNode(_, kids) => exists k | 0 <= k < |kids| :: kids[k] in kids && Varies(d, nodes, kids[k])
  }

  /** Without signals under it, a node has the same term whatever the counters. */
  lemma {:induction false} ConstantTerm(d: Design, nodes: seq<Node>, n: nat, c: Counters, clk: ClkType, c': Counters,
                                        clk': ClkType)
    requires NodesOk(d, nodes) && n < |nodes| && !Varies(d, nodes, n)
    ensures Plain(d, nodes, n, c, clk) == Plain(d, nodes, n, c', clk')
  {
    if nodes[n].OpNode? {
      var kids := nodes[n].kids;
      forall k | 0 <= k < |kids| ensures Plain(d, nodes, kids[k], c, clk) == Plain(d, nodes, kids[k], c', clk') {
        assert kids[k] in kids;
        ConstantTerm(d, nodes, kids[k], c, clk, c', clk');
      }
      assert seq(|kids|, k requires 0 <= k < |kids| && kids[k] in kids => Plain(d, nodes, kids[k], c, clk))
          == seq(|kids|, k requires 0 <= k < |kids| && kids[k] in kids => Plain(d, nodes, kids[k], c', clk'));
    }
  }

  // ----- nodes as expressions -----

  function NegateExpr(e: Expr, inverted: bool): Expr {
    if inverted then App(Not, [e]) else e
  }

  /** The expression an operator node stands for. */
  function Compose(kind: Kind, es: seq<Expr>): Expr
    requires ArityOk(kind, |es|)
  {
    match kind
    case Joined(r) => if r != 1 then App(Repeat(r), [App(Concat, es)]) else App(Concat, es)
    case AllOf => App(And, es)
    case Differ => App(Neq, es)
    case Always => App(True, [])
    case Unary(op, inverted) => NegateExpr(App(op, es), inverted)
    case Binary(op, toBits, inverted) =>
      NegateExpr(if toBits then App(BoolToBv, [App(op, es)]) else App(op, es), inverted)
    case Logic(op) => App(op, es)
    case Ternary => App(Ite, [App(EqOne, [es[0]]), es[1], es[2]])
  }

  /** Neither text nor arrays at or under the node, and all part selects within their signals. */
  predicate IsExpr(d: Design, nodes: seq<Node>, n: nat)
    requires NodesOk(d, nodes) && n < |nodes|
  {
    match nodes[n]
    case NumNode(_) => true
    case SigNode(s, lsb, msb) => lsb <= msb < d.Width(s)
    case OpNode(_, kids) => forall k | 0 <= k < |kids| :: kids[k] in kids && IsExpr(d, nodes, kids[k])
    case _ => false
  }

  function ExprOf(d: Design, nodes: seq<Node>, n: nat): (e: Expr)
    requires NodesOk(d, nodes) && n < |nodes| && IsExpr(d, nodes, n)
    ensures ExprOk(d, e)
  {
    match nodes[n]
    case NumNode(b) => Num(b)
    case SigNode(s, lsb, msb) => Ref(s, lsb, msb)
    case OpNode(kind, kids) =>
      var es := seq(|kids|, k requires 0 <= k < |kids| && kids[k] in kids && IsExpr(d, nodes, kids[k]) =>
                      ExprOf(d, nodes, kids[k]));
      assert forall k | 0 <= k < |es| :: ExprOk(d, es[k]);
      ComposeOk(d, kind, es);
      Compose(kind, es)
  }

  lemma ComposeOk(d: Design, kind: Kind, es: seq<Expr>)
    requires ArityOk(kind, |es|) && forall k | 0 <= k < |es| :: ExprOk(d, es[k])
    ensures ExprOk(d, Compose(kind, es))
  {
  }

  /** Building from terms and composing expressions are the same operation. */
  lemma BuildComposes(d: Design, kind: Kind, es: seq<Expr>, version: Sig -> nat)
    requires ArityOk(kind, |es|) && ExprOk(d, Compose(kind, es)) && forall k | 0 <= k < |es| :: ExprOk(d, es[k])
    ensures TermOf(d, Compose(kind, es), version)
         == Build(kind, seq(|es|, k requires 0 <= k < |es| => TermOf(d, es[k], version)))
  {
    var ts := seq(|es|, k requires 0 <= k < |es| => TermOf(d, es[k], version));
    match kind
    case Joined(r) => assert TermOf(d, App(Concat, es), version) == Apply(Concat, ts);
    case Unary(op, inverted) => assert TermOf(d, App(op, es), version) == Apply(op, ts);
    case Binary(op, toBits, inverted) =>
      assert TermOf(d, App(op, es), version) == Apply(op, ts);
      assert TermOf(d, App(BoolToBv, [App(op, es)]), version) == Apply(BoolToBv, [Apply(op, ts)]);
    case Ternary => assert TermOf(d, App(EqOne, [es[0]]), version) == Apply(EqOne, [ts[0]]);
    case _ =>
  }

  /** The versions an evaluation with this clock kind reads. */
  function Reads(c: Counters, clk: ClkType): Sig -> nat {
    match clk
    case Curr => c.curr
    case Next => c.next
  }

  /** The term of a node is the translation of its expression at the current versions, or at the next ones. */
  lemma {:induction false} PlainTranslates(d: Design, nodes: seq<Node>, n: nat, c: Counters, clk: ClkType)
    requires NodesOk(d, nodes) && n < |nodes| && IsExpr(d, nodes, n)
    ensures clk == Curr ==> Plain(d, nodes, n, c, clk) == Some(TermOf(d, ExprOf(d, nodes, n), c.curr))
    ensures clk == Next ==> Plain(d, nodes, n, c, clk) == Some(TermOf(d, ExprOf(d, nodes, n), c.next))
  {
    match nodes[n]
    case NumNode(_) =>
    case SigNode(_, _, _) =>
    case OpNode(kind, kids) =>
      var version := Reads(c, clk);
      var ps := seq(|kids|, k requires 0 <= k < |kids| && kids[k] in kids => Plain(d, nodes, kids[k], c, clk));
      var es := seq(|kids|, k requires 0 <= k < |kids| && kids[k] in kids && IsExpr(d, nodes, kids[k]) =>
                      ExprOf(d, nodes, kids[k]));
      forall k | 0 <= k < |kids| ensures ps[k] == Some(TermOf(d, es[k], version)) {
        PlainTranslates(d, nodes, kids[k], c, clk);
      }
      BuildComposes(d, kind, es, version);
      assert seq(|ps|, k requires 0 <= k < |ps| && ps[k].Some? => ps[k].value)
          == seq(|es|, k requires 0 <= k < |es| => TermOf(d, es[k], version));
    case _ =>
  }

  // ----- what the nodes mean -----

  /** Reading an array element: the version of the array the clock kind asks for, at the current version of the
      index. */
  lemma ArrayMeans(d: Design, nodes: seq<Node>, n: nat, c: Counters, clk: ClkType, val: Valuation, ip: Interp)
    requires NodesOk(d, nodes) && n < |nodes| && nodes[n].ArrayNode?
    ensures var s, index := nodes[n].sig, nodes[n].index;
            var whole := if clk == Curr then val(s, c.curr(s)) else val(s, c.next(s));
            var at := if index.Some? then val(index.value, c.curr(index.value)) else nodes[n].constant;
            && Plain(d, nodes, n, c, clk).Some?
            && Meaning(Plain(d, nodes, n, c, clk).value, val, ip) == ip(Select, [whole, at])
  {
    var t := Plain(d, nodes, n, c, clk).value;
    TwoArgs(t.args[0], t.args[1], val, ip);
  }

  lemma TwoArgs(t: Term, u: Term, val: Valuation, ip: Interp)
    ensures forall op :: Meaning(Apply(op, [t, u]), val, ip) == ip(op, [Meaning(t, val, ip), Meaning(u, val, ip)])
  {
    var ts := [t, u];
    assert seq(|ts|, k requires 0 <= k < |ts| => Meaning(ts[k], val, ip)) == [Meaning(t, val, ip), Meaning(u, val, ip)];
  }

  lemma OneArg(t: Term, val: Valuation, ip: Interp)
    ensures forall op :: Meaning(Apply(op, [t]), val, ip) == ip(op, [Meaning(t, val, ip)])
  {
    var ts := [t];
    assert seq(|ts|, k requires 0 <= k < |ts| => Meaning(ts[k], val, ip)) == [Meaning(t, val, ip)];
  }

  /** The operators that choose, read as intended. */
  ghost predicate Chooses(ip: Interp) {
    && (forall b: Bits :: ip(EqOne, [b]) == if b == [true] then [true] else [false])
    && (forall c: Bits, x: Bits, y: Bits :: ip(Ite, [c, x, y]) == if c == [true] then x else y)
  }

  /** A conditional takes its second child when its first is 1, and its third otherwise. */
  lemma TernaryMeans(c: Term, x: Term, y: Term, val: Valuation, ip: Interp)
    requires Chooses(ip)
    ensures Meaning(Build(Ternary, [c, x, y]), val, ip)
         == if Meaning(c, val, ip) == [true] then Meaning(x, val, ip) else Meaning(y, val, ip)
  {
    var cond := Apply(EqOne, [c]);
    var b := Meaning(c, val, ip);
    OneArg(c, val, ip);
    assert Meaning(cond, val, ip) == ip(EqOne, [b]);
    var ts := [cond, x, y];
    assert seq(|ts|, k requires 0 <= k < |ts| => Meaning(ts[k], val, ip))
        == [Meaning(cond, val, ip), Meaning(x, val, ip), Meaning(y, val, ip)];
    assert Meaning(Apply(Ite, ts), val, ip) == ip(Ite, [ip(EqOne, [b]), Meaning(x, val, ip), Meaning(y, val, ip)]);
  }

  /** What an inverted node adds. */
  lemma NegateMeans(t: Term, inverted: bool, val: Valuation, ip: Interp)
    ensures Meaning(Negate(t, inverted), val, ip)
         == if inverted then ip(Not, [Meaning(t, val, ip)]) else Meaning(t, val, ip)
  {
    OneArg(t, val, ip);
  }

  lemma UnaryMeans(op: Op, inverted: bool, x: Term, val: Valuation, ip: Interp)
    ensures Meaning(Build(Unary(op, inverted), [x]), val, ip)
         == if inverted then ip(Not, [ip(op, [Meaning(x, val, ip)])]) else ip(op, [Meaning(x, val, ip)])
  {
    OneArg(x, val, ip);
    NegateMeans(Apply(op, [x]), inverted, val, ip);
  }

  /** A binary node applies its operator to its children in order, makes a Boolean result a bit, and negates it when
      inverted. */
  lemma BinaryMeans(op: Op, toBits: bool, inverted: bool, x: Term, y: Term, val: Valuation, ip: Interp)
    ensures var plain := ip(op, [Meaning(x, val, ip), Meaning(y, val, ip)]);
            var bits := if toBits then ip(BoolToBv, [plain]) else plain;
            && Meaning(Build(Logic(op), [x, y]), val, ip) == plain
            && Meaning(Build(Binary(op, toBits, inverted), [x, y]), val, ip) ==
                 if inverted then ip(Not, [bits]) else bits
  {
    TwoArgs(x, y, val, ip);
    var t := Apply(op, [x, y]);
    OneArg(t, val, ip);
    NegateMeans(if toBits then Apply(BoolToBv, [t]) else t, inverted, val, ip);
  }

  /** A concatenation joins its children in order and repeats the result; a conjunction has all children. */
  lemma JoinedMeans(ts: seq<Term>, repeat: nat, val: Valuation, ip: Interp)
    requires ts != []
    ensures var vs := seq(|ts|, k requires 0 <= k < |ts| => Meaning(ts[k], val, ip));
            && Meaning(Build(Joined(repeat), ts), val, ip) ==
                 (if repeat == 1 then ip(Concat, vs) else ip(Repeat(repeat), [ip(Concat, vs)]))
            && Meaning(Build(AllOf, ts), val, ip) == ip(And, vs)
  {
    OneArg(Apply(Concat, ts), val, ip);
  }

  const START := Counters(_ => 0, _ => 0)

  /** The nodes with their cached terms and flags. */
  class Cache {
    const d: Design
    const nodes: seq<Node>
    var term: seq<Option<Term>>
    var evalNeeded: seq<bool>

    constructor (d: Design, nodes: seq<Node>)
      requires NodesOk(d, nodes)
      ensures this.d == d && this.nodes == nodes && Valid(|nodes|)
    {
      this.d, this.nodes := d, nodes;
      term := seq(|nodes|, _ => None);
      evalNeeded := seq(|nodes|, _ => true);
    }

    /** Below node m, a cleared flag means: nothing under the node varies, and its cached term is right. */
    ghost predicate Valid(m: nat)
      reads this
    {
      && NodesOk(d, nodes) && m <= |nodes| == |term| == |evalNeeded|
      && forall n | 0 <= n < m && !evalNeeded[n] ::
           !Varies(d, nodes, n) && term[n] == Plain(d, nodes, n, START, Curr)
    }

    /** The terms of the children from left to right, and whether one of them must be evaluated again. */
    method EvalKids(n: nat, c: Counters, clk: ClkType) returns (ts: seq<Option<Term>>, again: bool)
      requires Valid(n) && n < |nodes| && nodes[n].OpNode?
      modifies this
      ensures Valid(n) && |term| == |old(term)|
      ensures forall k | n <= k < |term| :: term[k] == old(term)[k] && evalNeeded[k] == old(evalNeeded)[k]
      ensures forall k | 0 <= k < |term| && !old(evalNeeded)[k] :: !evalNeeded[k]
      ensures ts == seq(|nodes[n].kids|, k requires 0 <= k < |nodes[n].kids| && nodes[n].kids[k] in nodes[n].kids =>
                          Plain(d, nodes, nodes[n].kids[k], c, clk))
      ensures again == Varies(d, nodes, n)
      decreases n, 0
    {
      var kids := nodes[n].kids;
      ts, again := [], false;
      for i := 0 to |kids|
        invariant Valid(n) && |term| == |old(term)|
        invariant forall k | n <= k < |term| :: term[k] == old(term)[k] && evalNeeded[k] == old(evalNeeded)[k]
        invariant forall k | 0 <= k < |term| && !old(evalNeeded)[k] :: !evalNeeded[k]
        invariant |ts| == i && forall k | 0 <= k < i :: kids[k] in kids && ts[k] == Plain(d, nodes, kids[k], c, clk)
        invariant again == exists k | 0 <= k < i :: kids[k] in kids && Varies(d, nodes, kids[k])
      {
        assert kids[i] in kids;
        var t := Eval(kids[i], c, clk);
        ts := ts + [t];
        if evalNeeded[kids[i]] {
          again := true;
        }
      }
      assert ts == seq(|kids|, k requires 0 <= k < |kids| && kids[k] in kids => Plain(d, nodes, kids[k], c, clk));
    }

    /** `eval_term`: the cached term when the flag is clear, otherwise a fresh one. */
    method Eval(n: nat, c: Counters, clk: ClkType) returns (t: Option<Term>)
      requires n < |nodes| && Valid(n + 1)
      modifies this
      ensures Valid(n + 1) && |term| == |old(term)|
      ensures forall k | n < k < |term| :: term[k] == old(term)[k] && evalNeeded[k] == old(evalNeeded)[k]
      ensures forall k | 0 <= k < |term| && !old(evalNeeded)[k] :: !evalNeeded[k]
      ensures t == Plain(d, nodes, n, c, clk)
      ensures evalNeeded[n] == Varies(d, nodes, n)
      decreases n, 1
    {
      match nodes[n] {
        case NumNode(b) =>
          if evalNeeded[n] {
            term, evalNeeded := term[n := Some(Const(b))], evalNeeded[n := false];
          }
        case TextNode =>
          term, evalNeeded := term[n := None], evalNeeded[n := false];
        case SigNode(s, lsb, msb) =>
          term := term[n := Some(SelectTerm(d, s, c.At(clk, s), lsb, msb))];
        case ArrayNode(s, index, constant) =>
          var i := if index.Some? then Var(index.value, c.curr(index.value)) else Const(constant);
          term := term[n := Some(Apply(Select, [Var(s, c.At(clk, s)), i]))];
        case OpNode(kind, kids) =>
          if evalNeeded[n] {
            evalNeeded := evalNeeded[n := false];
            var ts, again := EvalKids(n, c, clk);
            term := term[n := BuildAll(kind, ts)];
            evalNeeded := evalNeeded[n := again];
          }
      }
      if !Varies(d, nodes, n) {
        ConstantTerm(d, nodes, n, c, clk, START, Curr);
      }
      t := term[n];
    }
  }

  /** Over any sequence of evaluations, with the counters changed at will in between and either clock kind,
      the cached evaluation gives what a fresh one would. */
  method EvalMany(cache: Cache, queries: seq<(nat, Counters, ClkType)>) returns (results: seq<Option<Term>>)
    requires cache.Valid(|cache.nodes|) && forall q | q in queries :: q.0 < |cache.nodes|
    modifies cache
    ensures cache.Valid(|cache.nodes|) && |results| == |queries|
    ensures forall i | 0 <= i < |queries| ::
              var (n, c, clk) := queries[i]; results[i] == Plain(cache.d, cache.nodes, n, c, clk)
  {
    results := [];
    for i := 0 to |queries|
      invariant cache.Valid(|cache.nodes|) && |results| == i
      invariant forall j | 0 <= j < i ::
                  var (n, c, clk) := queries[j]; results[j] == Plain(cache.d, cache.nodes, n, c, clk)
    {
      var (n, c, clk) := queries[i];
      assert queries[i] in queries;
      var t := cache.Eval(n, c, clk);
      results := results + [t];
    }
  }
}
