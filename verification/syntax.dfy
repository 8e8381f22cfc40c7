/** Abstract syntax of Pawn function bodies, as the control-flow builder sees it. */
module Syntax {
  import opened Collections

  /** The first of two options that is there. */
  function Or<T>(first: Option<T>, second: Option<T>): Option<T> {
    if first.Some? then first else second
  }

  datatype Range = Range(start: int, end: int)

  /** A condition: its text decides its value, its range says where it stands. */
  datatype Expr = Expr(text: string, at: Range)

  /** The value of a condition, when it is a known constant. */
  type Evaluator = Expr -> Option<int>

  datatype LoopKind = While | DoWhile | For

  /** Statements. Fields that an error-tolerant parse can miss are options, and
      a missing label name is the empty string. */
  datatype Stmt =
    | Braces(at: Range, children: Stmts)
    | If(at: Range, cond: Option<Expr>, consequence: Option<Stmt>, alternative: Option<Stmt>)
    | Switch(at: Range, clauses: Clauses)
    | Loop(at: Range, kind: LoopKind, cond: Option<Expr>, body: Option<Stmt>)
    | Return(at: Range)
    | Break(at: Range)
    | Continue(at: Range)
    | GotoStmt(at: Range, name: string)
    | LabelStmt(at: Range, name: string)
    | Simple(at: Range, text: string)

  datatype Stmts = Nil | Cons(head: Stmt, tail: Stmts)

  datatype Clauses = End | Clause(isDefault: bool, body: Option<Stmt>, rest: Clauses)

  /** The number of graph blocks a statement gives rise to. */
  function Size(s: Stmt): nat {
    match s
    case Braces(_, children) => SizeAll(children)
    case If(_, _, c, a) => 1 + SizeOpt(c) + SizeOpt(a)
    case Switch(_, clauses) => 1 + SizeClauses(clauses)
    case Loop(_, _, _, body) => 1 + SizeOpt(body)
    case _ => 1
  }

  function SizeOpt(o: Option<Stmt>): nat {
    if o.Some? then Size(o.value) else 0
  }

  function SizeAll(ss: Stmts): nat {
    match ss
    case Nil => 0
    case Cons(s, rest) => Size(s) + SizeAll(rest)
  }

  function SizeClauses(cs: Clauses): nat {
    match cs
    case End => 0
    case Clause(_, body, rest) => SizeOpt(body) + SizeClauses(rest)
  }

  predicate HasDefault(cs: Clauses) {
    cs.Clause? && (cs.isDefault || HasDefault(cs.rest))
  }

  /** A condition holds, fails, or is not known at analysis time. */
  datatype Truth = Holds | Fails | Unknown {
    predicate MayHold() { !this.Fails? }
    predicate MayFail() { !this.Holds? }
  }

  function TruthOf(v: Option<int>): Truth {
    match v
    case None => Unknown
    case Some(n) => if n != 0 then Holds else Fails
  }

  function CondTruth(eval: Evaluator, cond: Option<Expr>): Truth {
    if cond.Some? then TruthOf(eval(cond.value)) else Unknown
  }

  /** A `for` without a condition always holds. */
  function LoopTruth(eval: Evaluator, kind: LoopKind, cond: Option<Expr>): Truth {
    if kind.For? && cond.None? then Holds else CondTruth(eval, cond)
  }

  /** Whether a label (with a name) stands anywhere inside. */
  predicate HasLabel(s: Stmt) {
    match s
    case Braces(_, children) => HasLabelAll(children)
    case If(_, _, c, a) => HasLabelOpt(c) || HasLabelOpt(a)
    case Switch(_, clauses) => HasLabelClauses(clauses)
    case Loop(_, _, _, body) => HasLabelOpt(body)
    case LabelStmt(_, name) => name != ""
    case _ => false
  }

  predicate HasLabelOpt(o: Option<Stmt>) {
    o.Some? && HasLabel(o.value)
  }

  predicate HasLabelAll(ss: Stmts) {
    ss.Cons? && (HasLabel(ss.head) || HasLabelAll(ss.tail))
  }

  predicate HasLabelClauses(cs: Clauses) {
    cs.Clause? && (HasLabelOpt(cs.body) || HasLabelClauses(cs.rest))
  }

  /** A measure that every part of a statement makes smaller. */
  function Weight(s: Stmt): nat {
    match s
    case Braces(_, children) => 1 + WeightAll(children)
    case If(_, _, c, a) => 1 + WeightOpt(c) + WeightOpt(a)
    case Switch(_, clauses) => 1 + WeightClauses(clauses)
    case Loop(_, _, _, body) => 1 + WeightOpt(body)
    case _ => 1
  }

  function WeightOpt(o: Option<Stmt>): nat {
    if o.Some? then Weight(o.value) else 0
  }

  function WeightAll(ss: Stmts): nat {
    match ss
    case Nil => 0
    case Cons(s, rest) => Weight(s) + WeightAll(rest)
  }

  function WeightClauses(cs: Clauses): nat {
    match cs
    case End => 0
    case Clause(_, body, rest) => 1 + WeightOpt(body) + WeightClauses(rest)
  }
}
