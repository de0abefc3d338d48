/** The prefix-notation propensity language, as a tree. An expression text such as
    `(* mu-h human-exposed)` becomes `Apply(Times, [Sym("mu-h"), Sym("human-exposed")])`. */
module Expressions {
  import opened Wrappers

  datatype Op = Plus | Minus | Times | Divide

  datatype Expr =
    | Lit(value: real)
    | Sym(name: string)
    | Apply(op: Op, args: seq<Expr>)

  /** `-` and `/` take exactly two operands; `+` and `*` take one or more. */
  predicate WellFormed(e: Expr) {
    match e
    case Lit(_) => true
    case Sym(_) => true
    case Apply(op, args) =>
      && (if op == Minus || op == Divide then |args| == 2 else |args| >= 1)
      && forall i :: 0 <= i < |args| ==> WellFormed(args[i])
  }

  /** Every name the expression refers to. */
  function Symbols(e: Expr): set<string> {
    match e
    case Lit(_) => {}
    case Sym(n) => {n}
    case Apply(_, args) => set i, x | 0 <= i < |args| && x in Symbols(args[i]) :: x
  }

  /** Every symbol leaf names a member of `names` (a check by tree walk). */
  predicate Resolves(e: Expr, names: set<string>) {
    match e
    case Lit(_) => true
    case Sym(n) => n in names
    case Apply(_, args) => forall i :: 0 <= i < |args| ==> Resolves(args[i], names)
  }

  /** The tree-walk check agrees with the set of referenced symbols. */
  lemma {:induction false} ResolvesIffSymbols(e: Expr, names: set<string>)
    ensures Resolves(e, names) <==> Symbols(e) <= names
  {
    match e
    case Lit(_) =>
    case Sym(_) =>
    case Apply(_, args) =>
      forall i | 0 <= i < |args| ensures Resolves(args[i], names) <==> Symbols(args[i]) <= names {
        ResolvesIffSymbols(args[i], names);
      }
  }

  /** Resolution survives enlarging the set of declared names. */
  lemma ResolvesMonotone(e: Expr, names: set<string>, more: set<string>)
    requires Resolves(e, names) && names <= more
    ensures Resolves(e, more)
  {
    ResolvesIffSymbols(e, names);
    ResolvesIffSymbols(e, more);
  }

  /** The expression refers to `n` somewhere (a search by tree walk). */
  predicate Mentions(e: Expr, n: string) {
    match e
    case Lit(_) => false
    case Sym(x) => x == n
    case Apply(_, args) => exists i :: 0 <= i < |args| && Mentions(args[i], n)
  }

  /** The tree-walk search agrees with the set of referenced symbols. */
  lemma {:induction false} MentionsIffSymbol(e: Expr, n: string)
    ensures Mentions(e, n) <==> n in Symbols(e)
  {
    match e
    case Lit(_) =>
    case Sym(_) =>
    case Apply(_, args) =>
      forall i | 0 <= i < |args| ensures Mentions(args[i], n) <==> n in Symbols(args[i]) {
        MentionsIffSymbol(args[i], n);
      }
  }

  /** The species summed by an expression of the form `(+ a b ...)` over bare symbols;
      `None` for any other expression. */
  function SumOperands(e: Expr): (r: Option<seq<string>>)
    ensures r.Some? <==> e.Apply? && e.op == Plus && forall i | 0 <= i < |e.args| :: e.args[i].Sym?
    ensures r.Some? ==> |r.value| == |e.args| && forall i | 0 <= i < |e.args| :: e.args[i] == Sym(r.value[i])
  {
    if e.Apply? && e.op == Plus && forall i | 0 <= i < |e.args| :: e.args[i].Sym? then
      Some(seq(|e.args|, i requires 0 <= i < |e.args| => e.args[i].name))
    else
      None
  }
}
