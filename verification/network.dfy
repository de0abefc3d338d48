/** The reaction-network model that the builder fills in: species, parameters, derived
    functions and reactions, each kind kept in declaration order. Adding a declaration
    appends it; the well-formedness rules (unique names, resolvable references, an
    acyclic function graph) are predicates over the finished model. */
module Network {
  import opened Seqs
  import opened Expressions

  /** A population compartment with its initial count and whether it is recorded. */
  datatype Species = Species(name: string, population: int, observe: bool)

  /** A named rate constant. Values are exact reals; they are never evaluated here. */
  datatype Parameter = Parameter(name: string, value: real)

  /** A named derived quantity, computed from species, parameters and other functions. */
  datatype Function = Function(name: string, body: Expr)

  /** A transition: one of each reactant is consumed and one of each product is produced,
      at the rate given by the propensity. A propensity given as a function name is the
      expression `Sym(name)`. */
  datatype Reaction = Reaction(name: string, reactants: seq<string>, products: seq<string>, propensity: Expr)

  datatype Model = Model(
    name: string,
    species: seq<Species>,
    parameters: seq<Parameter>,
    functions: seq<Function>,
    reactions: seq<Reaction>)

  // ----- names -----

  function NamesOf(sps: seq<Species>): (names: seq<string>)
    ensures |names| == |sps|
    ensures forall i :: 0 <= i < |sps| ==> names[i] == sps[i].name
  {
    seq(|sps|, i requires 0 <= i < |sps| => sps[i].name)
  }

  function SpeciesNames(m: Model): seq<string> {
    NamesOf(m.species)
  }

  function ParameterNames(m: Model): (names: seq<string>)
    ensures |names| == |m.parameters|
    ensures forall i :: 0 <= i < |m.parameters| ==> names[i] == m.parameters[i].name
  {
    seq(|m.parameters|, i requires 0 <= i < |m.parameters| => m.parameters[i].name)
  }

  function FunctionNames(m: Model): (names: seq<string>)
    ensures |names| == |m.functions|
    ensures forall i :: 0 <= i < |m.functions| ==> names[i] == m.functions[i].name
  {
    seq(|m.functions|, i requires 0 <= i < |m.functions| => m.functions[i].name)
  }

  function ReactionNames(m: Model): (names: seq<string>)
    ensures |names| == |m.reactions|
    ensures forall i :: 0 <= i < |m.reactions| ==> names[i] == m.reactions[i].name
  {
    seq(|m.reactions|, i requires 0 <= i < |m.reactions| => m.reactions[i].name)
  }

  /** Species, parameters and functions share one namespace. */
  function Namespace(m: Model): seq<string> {
    SpeciesNames(m) + ParameterNames(m) + FunctionNames(m)
  }

  // ----- building -----

  function NewModel(name: string): Model {
    Model(name, [], [], [], [])
  }

  function AddSpecies(m: Model, name: string, population: int, observe: bool): Model {
    m.(species := m.species + [Species(name, population, observe)])
  }

  function AddParameter(m: Model, name: string, value: real): Model {
    m.(parameters := m.parameters + [Parameter(name, value)])
  }

  function AddFunction(m: Model, name: string, body: Expr): Model {
    m.(functions := m.functions + [Function(name, body)])
  }

  function AddReaction(m: Model, name: string, reactants: seq<string>, products: seq<string>, propensity: Expr): Model {
    m.(reactions := m.reactions + [Reaction(name, reactants, products, propensity)])
  }

  // ----- well-formedness -----

  predicate NamespaceUnique(m: Model) {
    Distinct(Namespace(m))
  }

  predicate ReactionNamesUnique(m: Model) {
    Distinct(ReactionNames(m))
  }

  /** Every reactant and product is a declared species. */
  predicate ReactionsUseSpecies(m: Model) {
    forall i | 0 <= i < |m.reactions| ::
      && (forall n | n in m.reactions[i].reactants :: n in SpeciesNames(m))
      && (forall n | n in m.reactions[i].products :: n in SpeciesNames(m))
  }

  /** Every symbol of every function body and propensity is a declared name. */
  predicate SymbolsResolve(m: Model) {
    && (forall i | 0 <= i < |m.functions| :: Resolves(m.functions[i].body, Elems(Namespace(m))))
    && (forall i | 0 <= i < |m.reactions| :: Resolves(m.reactions[i].propensity, Elems(Namespace(m))))
  }

  /** A function refers only to species, parameters and functions declared before it. */
  predicate FunctionsOrdered(m: Model) {
    forall i | 0 <= i < |m.functions| ::
      Resolves(m.functions[i].body, Elems(SpeciesNames(m) + ParameterNames(m) + FunctionNames(m)[..i]))
  }

  /** Every expression respects the operator arities. */
  predicate OperatorsWellFormed(m: Model) {
    && (forall i | 0 <= i < |m.functions| :: WellFormed(m.functions[i].body))
    && (forall i | 0 <= i < |m.reactions| :: WellFormed(m.reactions[i].propensity))
  }

  predicate Valid(m: Model) {
    && NamespaceUnique(m)
    && ReactionNamesUnique(m)
    && ReactionsUseSpecies(m)
    && SymbolsResolve(m)
    && FunctionsOrdered(m)
    && OperatorsWellFormed(m)
  }

  /** Some function body or propensity refers to `n`. */
  predicate Referenced(m: Model, n: string) {
    || (exists i | 0 <= i < |m.functions| :: Mentions(m.functions[i].body, n))
    || (exists i | 0 <= i < |m.reactions| :: Mentions(m.reactions[i].propensity, n))
  }

  // ----- uniqueness is kept exactly by fresh additions -----

  lemma AddSpeciesUnique(m: Model, name: string, population: int, observe: bool)
    ensures NamespaceUnique(AddSpecies(m, name, population, observe))
        <==> NamespaceUnique(m) && name !in Namespace(m)
  {
    var m' := AddSpecies(m, name, population, observe);
    assert SpeciesNames(m') == SpeciesNames(m) + [name];
    assert Namespace(m') == SpeciesNames(m) + [name] + (ParameterNames(m) + FunctionNames(m));
    assert Namespace(m) == SpeciesNames(m) + (ParameterNames(m) + FunctionNames(m));
    DistinctInsert(SpeciesNames(m), name, ParameterNames(m) + FunctionNames(m));
  }

  lemma AddParameterUnique(m: Model, name: string, value: real)
    ensures NamespaceUnique(AddParameter(m, name, value))
        <==> NamespaceUnique(m) && name !in Namespace(m)
  {
    var m' := AddParameter(m, name, value);
    assert ParameterNames(m') == ParameterNames(m) + [name];
    assert Namespace(m') == SpeciesNames(m) + ParameterNames(m) + [name] + FunctionNames(m);
    DistinctInsert(SpeciesNames(m) + ParameterNames(m), name, FunctionNames(m));
  }

  lemma AddFunctionUnique(m: Model, name: string, body: Expr)
    ensures NamespaceUnique(AddFunction(m, name, body))
        <==> NamespaceUnique(m) && name !in Namespace(m)
  {
    var m' := AddFunction(m, name, body);
    assert FunctionNames(m') == FunctionNames(m) + [name];
    assert Namespace(m') == Namespace(m) + [name] + [];
    assert Namespace(m) + [] == Namespace(m);
    DistinctInsert(Namespace(m), name, []);
  }

  lemma AddReactionUnique(m: Model, name: string, reactants: seq<string>, products: seq<string>, propensity: Expr)
    ensures ReactionNamesUnique(AddReaction(m, name, reactants, products, propensity))
        <==> ReactionNamesUnique(m) && name !in ReactionNames(m)
  {
    var m' := AddReaction(m, name, reactants, products, propensity);
    assert ReactionNames(m') == ReactionNames(m) + [name] + [];
    assert ReactionNames(m) + [] == ReactionNames(m);
    DistinctInsert(ReactionNames(m), name, []);
  }

  // ----- the function-reference graph -----

  /** Function `i`'s body mentions function `j`. */
  predicate Refers(m: Model, i: int, j: int) {
    && 0 <= i < |m.functions|
    && 0 <= j < |m.functions|
    && m.functions[j].name in Symbols(m.functions[i].body)
  }

  /** A walk along references: each function mentions the next one. */
  predicate IsChain(m: Model, p: seq<int>) {
    forall k | 0 <= k < |p| - 1 :: Refers(m, p[k], p[k + 1])
  }

  /** No function reaches itself through references. */
  ghost predicate Acyclic(m: Model) {
    forall p | IsChain(m, p) && |p| >= 2 :: p[0] != p[|p| - 1]
  }

  /** In a model with a unique namespace whose functions refer only backwards, every
      reference points to an earlier function. */
  lemma ReferencePointsBack(m: Model, i: int, j: int)
    requires NamespaceUnique(m) && FunctionsOrdered(m)
    requires Refers(m, i, j)
    ensures j < i
  {
    var s, ps, fs := SpeciesNames(m), ParameterNames(m), FunctionNames(m);
    var x := fs[j];
    ResolvesIffSymbols(m.functions[i].body, Elems(s + ps + fs[..i]));
    assert x in s + ps + fs[..i];
    var all := Namespace(m);
    assert all[|s| + |ps| + j] == x;
    var k :| 0 <= k < |s + ps + fs[..i]| && (s + ps + fs[..i])[k] == x;
    assert (s + ps + fs[..i])[k] == all[k];
    assert k == |s| + |ps| + j;
  }

  lemma {:induction false} ChainPointsBack(m: Model, p: seq<int>)
    requires NamespaceUnique(m) && FunctionsOrdered(m)
    requires IsChain(m, p) && |p| >= 2
    ensures p[|p| - 1] < p[0]
  {
    ReferencePointsBack(m, p[0], p[1]);
    if |p| > 2 {
      assert IsChain(m, p[1..]) by {
        forall k | 0 <= k < |p[1..]| - 1 ensures Refers(m, p[1..][k], p[1..][k + 1]) {
          assert Refers(m, p[k + 1], p[k + 2]);
        }
      }
      ChainPointsBack(m, p[1..]);
    }
  }

  /** Backward-only references make the function graph acyclic. */
  lemma OrderedFunctionsAcyclic(m: Model)
    requires NamespaceUnique(m) && FunctionsOrdered(m)
    ensures Acyclic(m)
  {
    forall p | IsChain(m, p) && |p| >= 2 ensures p[0] != p[|p| - 1] {
      ChainPointsBack(m, p);
    }
  }
}
