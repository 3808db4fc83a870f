/** Bit vectors, right-hand-side expressions, solver terms, and the translation
    of an expression into a term at the current versions of its signals. */
module Terms {
  /** A bit vector, least significant bit first. */
  type Bits = seq<bool>

  /** Registers and inputs are referred to by their index in the two signal lists. */
  datatype Sig = Reg(i: nat) | Inp(j: nat)

  /** The operators the encoder builds terms with. Their meaning is a parameter of every theorem. */
  datatype Op =
    | Concat | Repeat(count: nat)
    | Neg | Not | RedAnd | RedOr
    | Add | Sub | Mul | SDiv | SRem
    | BitAnd | BitOr | BitXor | BitNand | BitNor | BitXnor
    | Shl | Lshr | Ashr
    | RedComp | Lt | Le | Gt | Ge | Slt | Sle | Sgt | Sge
    | BoolToBv | Ite | EqOne | And | Neq | True | Select

  /** `Ref` is a whole signal or a constant part select of it. */
  datatype Expr =
    | Num(bits: Bits)
    | Ref(sig: Sig, lsb: nat, msb: nat)
    | App(op: Op, args: seq<Expr>)

  datatype Term =
    | Const(bits: Bits)
    | Var(sig: Sig, version: nat)
    | Extract(t: Term, lsb: nat, msb: nat)
    | Apply(op: Op, args: seq<Term>)

  datatype Formula = Equal(left: Term, right: Term)

  type Interp = (Op, seq<Bits>) -> Bits
  type Valuation = (Sig, nat) -> Bits

  /** The declared widths of all signals. */
  datatype Design = Design(regWidth: seq<nat>, inpWidth: seq<nat>) {
    predicate Has(s: Sig) {
      match s
      case Reg(i) => i < |regWidth|
      case Inp(j) => j < |inpWidth|
    }

    function Width(s: Sig): nat
      requires Has(s)
    {
      match s
      case Reg(i) => regWidth[i]
      case Inp(j) => inpWidth[j]
    }
  }

  function Zeros(n: nat): (z: Bits)
    ensures |z| == n
  {
    seq(n, _ => false)
  }

  /** The Verilog part select `b[msb:lsb]`; out of range it selects nothing. */
  function Slice(b: Bits, lsb: nat, msb: nat): Bits {
    if lsb <= msb < |b| then b[lsb..msb + 1] else []
  }

  /** `b` with the bits from `lsb` on replaced by `v`; out of range it is unchanged. */
  function Splice(b: Bits, lsb: nat, v: Bits): (r: Bits)
    ensures |r| == |b|
  {
    if lsb + |v| <= |b| then b[..lsb] + v + b[lsb + |v|..] else b
  }

  lemma SliceOfSplice(b: Bits, lsb: nat, v: Bits)
    requires v != [] && lsb + |v| <= |b|
    ensures Slice(Splice(b, lsb, v), lsb, lsb + |v| - 1) == v
    ensures forall k | 0 <= k < |b| && !(lsb <= k < lsb + |v|) :: Splice(b, lsb, v)[k] == b[k]
  {
  }

  lemma WholeSelect(b: Bits, x: Bits)
    requires |b| == |x| > 0
    ensures Slice(b, 0, |b| - 1) == b && Splice(b, 0, x) == x
  {
  }

  predicate ExprOk(d: Design, e: Expr) {
    match e
    case Num(_) => true
    case Ref(s, lsb, msb) => d.Has(s) && lsb <= msb < d.Width(s)
    case App(_, args) => forall k | 0 <= k < |args| :: ExprOk(d, args[k])
  }

  /** The value of an expression when each signal holds what `read` says. */
  function Value(e: Expr, read: Sig -> Bits, ip: Interp): Bits {
    match e
    case Num(b) => b
    case Ref(s, lsb, msb) => Slice(read(s), lsb, msb)
    case App(op, args) => ip(op, seq(|args|, k requires 0 <= k < |args| => Value(args[k], read, ip)))
  }

  /** The value of a term in a valuation of the versioned signals. */
  function Meaning(t: Term, val: Valuation, ip: Interp): Bits {
    match t
    case Const(b) => b
    case Var(s, k) => val(s, k)
    case Extract(u, lsb, msb) => Slice(Meaning(u, val, ip), lsb, msb)
    case Apply(op, args) => ip(op, seq(|args|, k requires 0 <= k < |args| => Meaning(args[k], val, ip)))
  }

  predicate Holds(f: Formula, val: Valuation, ip: Interp) {
    Meaning(f.left, val, ip) == Meaning(f.right, val, ip)
  }

  ghost predicate Sat(fs: seq<Formula>, val: Valuation, ip: Interp) {
    forall f | f in fs :: Holds(f, val, ip)
  }

  /** A signal's term: a part select is extracted, a whole signal is used as it is. */
  function SelectTerm(d: Design, s: Sig, version: nat, lsb: nat, msb: nat): Term
    requires d.Has(s)
  {
    if msb - lsb != d.Width(s) - 1 then Extract(Var(s, version), lsb, msb) else Var(s, version)
  }

  function TermOf(d: Design, e: Expr, version: Sig -> nat): Term
    requires ExprOk(d, e)
  {
    match e
    case Num(b) => Const(b)
    case Ref(s, lsb, msb) => SelectTerm(d, s, version(s), lsb, msb)
    case App(op, args) => Apply(op, seq(|args|, k requires 0 <= k < |args| => TermOf(d, args[k], version)))
  }

  /** Every version of a signal has the declared width of that signal. */
  ghost predicate Typed(d: Design, val: Valuation) {
    forall s: Sig, k: nat | d.Has(s) :: |val(s, k)| == d.Width(s)
  }

  /** A select term means the Verilog part select of the version's value. */
  lemma SelectMeaning(d: Design, s: Sig, version: nat, lsb: nat, msb: nat, val: Valuation, ip: Interp)
    requires d.Has(s) && lsb <= msb < d.Width(s) && Typed(d, val)
    ensures Meaning(SelectTerm(d, s, version, lsb, msb), val, ip) == Slice(val(s, version), lsb, msb)
  {
    assert |val(s, version)| == d.Width(s);
  }

  /** What each signal reads when `version` picks its version. */
  function Through(val: Valuation, version: Sig -> nat): Sig -> Bits {
    (s: Sig) => val(s, version(s))
  }

  /** Translation preserves meaning: the term of an expression means the expression's value. */
  lemma {:induction false} TermMeaning(d: Design, e: Expr, version: Sig -> nat, val: Valuation, ip: Interp)
    requires ExprOk(d, e) && Typed(d, val)
    ensures Meaning(TermOf(d, e, version), val, ip) == Value(e, Through(val, version), ip)
  {
    match e
    case Num(_) =>
    case Ref(s, lsb, msb) =>
      SelectMeaning(d, s, version(s), lsb, msb, val, ip);
    case App(op, args) =>
      var read := Through(val, version);
      var t := TermOf(d, e, version);
      forall k | 0 <= k < |args|
        ensures Meaning(t.args[k], val, ip) == Value(args[k], read, ip)
      {
        TermMeaning(d, args[k], version, val, ip);
      }
      assert seq(|t.args|, k requires 0 <= k < |t.args| => Meaning(t.args[k], val, ip))
          == seq(|args|, k requires 0 <= k < |args| => Value(args[k], read, ip));
  }

  /** The value of an expression depends only on the declared signals it reads. */
  lemma {:induction false} ValueDependsOnSignals(d: Design, e: Expr, read: Sig -> Bits, read': Sig -> Bits, ip: Interp)
    requires ExprOk(d, e)
    requires forall s | d.Has(s) :: read(s) == read'(s)
    ensures Value(e, read, ip) == Value(e, read', ip)
  {
    if e.App? {
      forall k | 0 <= k < |e.args|
        ensures Value(e.args[k], read, ip) == Value(e.args[k], read', ip)
      {
        ValueDependsOnSignals(d, e.args[k], read, read', ip);
      }
      assert seq(|e.args|, k requires 0 <= k < |e.args| => Value(e.args[k], read, ip))
          == seq(|e.args|, k requires 0 <= k < |e.args| => Value(e.args[k], read', ip));
    }
  }

  /** A term is fixed by the versions of the declared signals. */
  lemma {:induction false} TermDependsOnVersions(d: Design, e: Expr, version: Sig -> nat, version': Sig -> nat)
    requires ExprOk(d, e)
    requires forall s | d.Has(s) :: version(s) == version'(s)
    ensures TermOf(d, e, version) == TermOf(d, e, version')
  {
    if e.App? {
      forall k | 0 <= k < |e.args|
        ensures TermOf(d, e.args[k], version) == TermOf(d, e.args[k], version')
      {
        TermDependsOnVersions(d, e.args[k], version, version');
      }
    }
  }
}
