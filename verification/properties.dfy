/** What the hat network promises, stated for every choice of initial populations. */
module HatProperties {
  import opened Wrappers
  import opened Seqs
  import opened Expressions
  import opened Network
  import opened Dynamics
  import opened HatModel

  /** The parameter and function names, in declaration order. */
  const ParameterOrder: seq<string> := [
    "sigma-h", "phi-h", "omega-h", "beta-v", "p-human-feed", "p-reservoir-feed", "sigma-v", "mu-v",
    "p-feed", "beta-h", "beta-r", "phi-r", "omega-r", "mu-h", "mu-r"]
  const FunctionOrder: seq<string> := ["human-population", "reservoir-population", "infectious-feed"]

  /** The reaction names, in declaration order. */
  const ReactionOrder: seq<string> := [
    "human-infection", "human-exposed-infectious", "human-infectious-progression", "human-recovery",
    "feed-and-infected", "become-non-susceptible", "tsetse-progress-to-infectious",
    "reservoir-infection", "reservoir-exposed-infectious", "reservoir-recovery",
    "human-exposed-death-birth", "human-infectious-one-death-birth", "human-infectious-two-death-birth",
    "human-recovered-death-birth", "vector-exposed-death-birth", "vector-infectious-death-birth",
    "vector-non-susceptible-death-birth", "reservoir-exposed-death-birth",
    "reservoir-infectious-death-birth", "reservoir-recovered-death-birth"]

  /** `m` holds exactly the declaration tables of the hat network. */
  predicate Declares(m: Model, kwargs: Populations) {
    && m.species == SpeciesTable(kwargs)
    && m.parameters == ParameterTable
    && m.functions == HatFunctions
    && m.reactions == HatReactions
  }

  /** The builder's result is the four declaration tables, in order, under the name `hat`. */
  lemma BuildModelTables(kwargs: Populations)
    ensures BuildModel(kwargs).name == "hat"
    ensures Declares(BuildModel(kwargs), kwargs)
  {
    BuildSpecies(kwargs);
    BuildParameters(kwargs);
    BuildFunctions(kwargs);
    BuildReactions(kwargs);
  }

  lemma BuildSpecies(kwargs: Populations)
    ensures BuildModel(kwargs).species == SpeciesTable(kwargs)
  {
  }

  lemma BuildParameters(kwargs: Populations)
    ensures BuildModel(kwargs).parameters == ParameterTable
  {
  }

  lemma BuildFunctions(kwargs: Populations)
    ensures BuildModel(kwargs).functions == HatFunctions
  {
  }

  lemma BuildReactions(kwargs: Populations)
    ensures BuildModel(kwargs).reactions == HatReactions
  {
  }

  // ----- species and their initial populations -----

  /** Exactly the fourteen listed species, all observed, each starting from its supplied
      population or 0. */
  lemma SpeciesFromPopulations(m: Model, kwargs: Populations)
    requires Declares(m, kwargs)
    ensures |m.species| == |SpeciesOrder|
    ensures forall i | 0 <= i < |SpeciesOrder| ::
      m.species[i] == Species(SpeciesOrder[i], Lookup(kwargs, SpeciesOrder[i]), true)
  {
    SpeciesTableEntries(kwargs);
  }

  lemma SpeciesTableEntries(kwargs: Populations)
    ensures |SpeciesTable(kwargs)| == |SpeciesOrder|
    ensures forall i | 0 <= i < |SpeciesOrder| ::
      SpeciesTable(kwargs)[i] == Species(SpeciesOrder[i], Lookup(kwargs, SpeciesOrder[i]), true)
  {
  }

  /** The supplied populations never add or remove a species: a name that is not listed,
      such as `non-reservoir-hosts`, creates nothing. */
  lemma SpeciesNamesFixed(m: Model, kwargs: Populations)
    requires Declares(m, kwargs)
    ensures SpeciesNames(m) == SpeciesOrder
    ensures "non-reservoir-hosts" !in SpeciesNames(m)
  {
    var names := SpeciesNames(m);
    assert forall i | 0 <= i < |SpeciesOrder| :: names[i] == SpeciesOrder[i];
  }

  /** The state a run starts from holds exactly the listed species, each at its supplied
      population or 0. */
  lemma InitialStateFromPopulations(m: Model, kwargs: Populations)
    requires Declares(m, kwargs)
    ensures InitialState(m.species).Keys == Elems(SpeciesOrder)
    ensures forall n | n in SpeciesOrder :: InitialState(m.species)[n] == Lookup(kwargs, n)
    ensures forall i | 0 <= i < |SpeciesOrder| ::
      SpeciesOrder[i] in InitialState(m.species) && InitialState(m.species)[SpeciesOrder[i]] == Lookup(kwargs, SpeciesOrder[i])
  {
    SpeciesNamesFixed(m, kwargs);
    SpeciesFromPopulations(m, kwargs);
    SpeciesOrderDistinct();
    forall i | 0 <= i < |SpeciesOrder|
      ensures SpeciesOrder[i] in InitialState(m.species) && InitialState(m.species)[SpeciesOrder[i]] == Lookup(kwargs, SpeciesOrder[i])
    {
      InitialStateLookup(m.species, i);
    }
  }

  // ----- names -----

  lemma TableNames(m: Model, kwargs: Populations)
    requires Declares(m, kwargs)
    ensures ParameterNames(m) == ParameterOrder
    ensures FunctionNames(m) == FunctionOrder
    ensures Namespace(m) == SpeciesOrder + ParameterOrder + FunctionOrder
    ensures ReactionNames(m) == ReactionOrder
  {
    SpeciesNamesFixed(m, kwargs);
    var ps, fs, rs := ParameterNames(m), FunctionNames(m), ReactionNames(m);
    assert forall i | 0 <= i < |ParameterOrder| :: ps[i] == ParameterOrder[i];
    assert forall i | 0 <= i < |FunctionOrder| :: fs[i] == FunctionOrder[i];
    assert forall i | 0 <= i < |ReactionOrder| :: rs[i] == ReactionOrder[i];
  }

  lemma DeclaredNamesDistinct()
    ensures Distinct(SpeciesOrder + ParameterOrder + FunctionOrder)
  {
    SpeciesOrderDistinct();
    RateNamesDistinct();
    SpeciesAreNotRates();
    DistinctConcat(SpeciesOrder, ParameterOrder + FunctionOrder);
    assert SpeciesOrder + ParameterOrder + FunctionOrder == SpeciesOrder + (ParameterOrder + FunctionOrder);
  }

  lemma SpeciesOrderDistinct()
    ensures Distinct(SpeciesOrder)
  {
  }

  lemma RateNamesDistinct()
    ensures Distinct(ParameterOrder + FunctionOrder)
  {
  }

  lemma SpeciesAreNotRates()
    ensures forall x | x in SpeciesOrder :: x !in ParameterOrder + FunctionOrder
  {
  }

  lemma ReactionOrderDistinct()
    ensures Distinct(ReactionOrder)
  {
  }

  /** Species, parameter and function names are pairwise distinct, and so are reaction names. */
  lemma NamesUnique(m: Model, kwargs: Populations)
    requires Declares(m, kwargs)
    ensures NamespaceUnique(m)
    ensures ReactionNamesUnique(m)
  {
    TableNames(m, kwargs);
    DeclaredNamesDistinct();
    ReactionOrderDistinct();
  }

  // ----- referential integrity -----

  /** Every name of the namespace, as a set. */
  const Declared: set<string> := Elems(SpeciesOrder + ParameterOrder + FunctionOrder)

  lemma SpeciesDeclared(i: nat)
    requires i < |SpeciesOrder|
    ensures SpeciesOrder[i] in Declared
  {
    assert (SpeciesOrder + ParameterOrder + FunctionOrder)[i] == SpeciesOrder[i];
  }

  lemma ParameterDeclared(i: nat)
    requires i < |ParameterOrder|
    ensures ParameterOrder[i] in Declared
  {
    assert (SpeciesOrder + ParameterOrder + FunctionOrder)[|SpeciesOrder| + i] == ParameterOrder[i];
  }

  lemma FunctionDeclared(i: nat)
    requires i < |FunctionOrder|
    ensures FunctionOrder[i] in Declared
  {
    assert (SpeciesOrder + ParameterOrder + FunctionOrder)[|SpeciesOrder| + |ParameterOrder| + i] == FunctionOrder[i];
  }

  lemma DeclaredIsNamespace(m: Model, kwargs: Populations)
    requires Declares(m, kwargs)
    ensures Declared <= Elems(Namespace(m))
  {
    TableNames(m, kwargs);
  }

  lemma TableReactionsUseSpecies()
    ensures forall i | 0 <= i < |HatReactions| ::
      && (forall n | n in HatReactions[i].reactants :: n in SpeciesOrder)
      && (forall n | n in HatReactions[i].products :: n in SpeciesOrder)
  {
  }

  /** Every reactant and every product is a declared species. */
  lemma ReactionsUseDeclaredSpecies(m: Model, kwargs: Populations)
    requires Declares(m, kwargs)
    ensures ReactionsUseSpecies(m)
  {
    SpeciesNamesFixed(m, kwargs);
    TableReactionsUseSpecies();
  }

  // The propensities are built from a few shapes; each shape's symbols are stated once.

  lemma RateResolves(parameter: string, species: string, names: set<string>)
    ensures Resolves(Rate(parameter, species), names) <==> parameter in names && species in names
  {
    assert Rate(parameter, species).args[0] == Sym(parameter);
    assert Rate(parameter, species).args[1] == Sym(species);
  }

  lemma BitingResolves(beta: string, susceptible: string, population: string, names: set<string>)
    ensures Resolves(BitingInfection(beta, susceptible, population), names)
        <==> beta in names && susceptible in names && "tsetse-infectious" in names && population in names
  {
    var product := Apply(Times, [Sym(beta), Sym(susceptible), Sym("tsetse-infectious")]);
    assert product.args[0] == Sym(beta) && product.args[1] == Sym(susceptible) && product.args[2] == Sym("tsetse-infectious");
    assert Resolves(product, names) <==> beta in names && susceptible in names && "tsetse-infectious" in names;
    var e := BitingInfection(beta, susceptible, population);
    assert e.args[0] == product && e.args[1] == Sym(population);
    assert Resolves(e, names) <==> Resolves(product, names) && Resolves(Sym(population), names);
  }

  /** The propensities of the human progressions, by shape. */
  lemma HumanPropensityShapes()
    ensures HatReactions[0].propensity == BitingInfection("beta-h", "human-susceptible", "human-population")
    ensures HatReactions[1].propensity == Rate("sigma-h", "human-exposed")
    ensures HatReactions[2].propensity == Rate("phi-h", "human-infectious-one")
    ensures HatReactions[3].propensity == Rate("omega-h", "human-infectious-two")
  {
  }

  /** The propensities of the vector reactions, by shape. */
  lemma VectorPropensityShapes()
    ensures HatReactions[4].propensity == Sym("infectious-feed")
    ensures HatReactions[5].propensity == Apply(Minus, [Lit(1.0), Sym("infectious-feed")])
    ensures HatReactions[6].propensity == Rate("sigma-v", "tsetse-exposed")
  {
  }

  /** The propensities of the reservoir progressions, by shape. */
  lemma ReservoirPropensityShapes()
    ensures HatReactions[7].propensity == BitingInfection("beta-r", "reservoir-susceptible", "reservoir-population")
    ensures HatReactions[8].propensity == Rate("phi-r", "reservoir-exposed")
    ensures HatReactions[9].propensity == Rate("omega-r", "reservoir-infectious")
  {
  }

  /** The names the human and vector propensities use. */
  const InfectionPropensityNames: set<string> :=
    {"beta-h", "human-susceptible", "tsetse-infectious", "human-population", "sigma-h", "human-exposed",
     "phi-h", "human-infectious-one", "omega-h", "human-infectious-two", "infectious-feed",
     "sigma-v", "tsetse-exposed"}

  /** The names the reservoir propensities use. */
  const ReservoirPropensityNames: set<string> :=
    {"beta-r", "reservoir-susceptible", "tsetse-infectious", "reservoir-population",
     "phi-r", "reservoir-exposed", "omega-r", "reservoir-infectious"}

  lemma InfectionPropensityNamesDeclared()
    ensures InfectionPropensityNames <= Declared
  {
    SpeciesDeclared(0); SpeciesDeclared(1); SpeciesDeclared(2); SpeciesDeclared(3);
    SpeciesDeclared(7); SpeciesDeclared(8);
    ParameterDeclared(0); ParameterDeclared(1); ParameterDeclared(2); ParameterDeclared(6); ParameterDeclared(9);
    FunctionDeclared(0); FunctionDeclared(2);
  }

  lemma ReservoirPropensityNamesDeclared()
    ensures ReservoirPropensityNames <= Declared
  {
    SpeciesDeclared(8); SpeciesDeclared(10); SpeciesDeclared(11); SpeciesDeclared(12);
    ParameterDeclared(10); ParameterDeclared(11); ParameterDeclared(12);
    FunctionDeclared(1);
  }

  lemma InfectionPropensitiesUse()
    ensures forall i | 0 <= i < 7 :: Resolves(HatReactions[i].propensity, InfectionPropensityNames)
  {
    HumanPropensityShapes();
    VectorPropensityShapes();
    BitingResolves("beta-h", "human-susceptible", "human-population", InfectionPropensityNames);
    RateResolves("sigma-h", "human-exposed", InfectionPropensityNames);
    RateResolves("phi-h", "human-infectious-one", InfectionPropensityNames);
    RateResolves("omega-h", "human-infectious-two", InfectionPropensityNames);
    assert Resolves(Apply(Minus, [Lit(1.0), Sym("infectious-feed")]), InfectionPropensityNames);
    RateResolves("sigma-v", "tsetse-exposed", InfectionPropensityNames);
  }

  lemma ReservoirPropensitiesUse()
    ensures forall i | 7 <= i < 10 :: Resolves(HatReactions[i].propensity, ReservoirPropensityNames)
  {
    ReservoirPropensityShapes();
    BitingResolves("beta-r", "reservoir-susceptible", "reservoir-population", ReservoirPropensityNames);
    RateResolves("phi-r", "reservoir-exposed", ReservoirPropensityNames);
    RateResolves("omega-r", "reservoir-infectious", ReservoirPropensityNames);
  }

  /** The propensities of the human and vector reactions. */
  lemma InfectionPropensitiesResolve()
    ensures forall i | 0 <= i < 7 :: Resolves(HatReactions[i].propensity, Declared)
  {
    InfectionPropensityNamesDeclared();
    InfectionPropensitiesUse();
    forall i | 0 <= i < 7 ensures Resolves(HatReactions[i].propensity, Declared) {
      ResolvesMonotone(HatReactions[i].propensity, InfectionPropensityNames, Declared);
    }
  }

  /** The propensities of the reservoir reactions. */
  lemma ReservoirPropensitiesResolve()
    ensures forall i | 7 <= i < 10 :: Resolves(HatReactions[i].propensity, Declared)
  {
    ReservoirPropensityNamesDeclared();
    ReservoirPropensitiesUse();
    forall i | 7 <= i < 10 ensures Resolves(HatReactions[i].propensity, Declared) {
      ResolvesMonotone(HatReactions[i].propensity, ReservoirPropensityNames, Declared);
    }
  }

  /** The propensities of the death-birth reactions. */
  lemma VitalPropensitiesResolve()
    ensures forall i | 10 <= i < |HatReactions| :: Resolves(HatReactions[i].propensity, Declared)
  {
    forall i | 10 <= i < |HatReactions| ensures Resolves(HatReactions[i].propensity, Declared) {
      var r := HatReactions[i];
      assert r.propensity == Rate(r.propensity.args[0].name, r.reactants[0]);
      RateResolves(r.propensity.args[0].name, r.reactants[0], Declared);
    }
  }

  const HumanPopulationNames: set<string> := Elems(HumanHosts)
  const ReservoirPopulationNames: set<string> := Elems(ReservoirHosts)
  const InfectiousFeedNames: set<string> :=
    {"p-feed", "p-human-feed", "human-infectious-one", "human-population",
     "p-reservoir-feed", "reservoir-infectious", "reservoir-population", "beta-v"}

  /** `infectious-feed` uses four parameters, two species and the two population functions. */
  lemma InfectiousFeedResolves()
    ensures Resolves(InfectiousFeedBody, InfectiousFeedNames)
  {
    var human := Apply(Times, [Sym("p-human-feed"), Apply(Divide, [Sym("human-infectious-one"), Sym("human-population")])]);
    var reservoir := Apply(Times, [Sym("p-reservoir-feed"), Apply(Divide, [Sym("reservoir-infectious"), Sym("reservoir-population")])]);
    assert Resolves(human, InfectiousFeedNames);
    assert Resolves(reservoir, InfectiousFeedNames);
    assert Resolves(Apply(Plus, [human, reservoir]), InfectiousFeedNames);
  }

  /** Each function refers only to names declared before it. */
  lemma TableFunctionsOrdered(m: Model, kwargs: Populations)
    requires Declares(m, kwargs)
    ensures FunctionsOrdered(m)
  {
    SpeciesNamesFixed(m, kwargs);
    TableNames(m, kwargs);
    HatFunctionsOrdered();
  }

  lemma HatFunctionsOrdered()
    ensures forall i | 0 <= i < |HatFunctions| ::
      Resolves(HatFunctions[i].body, Elems(SpeciesOrder + ParameterOrder + FunctionOrder[..i]))
  {
    HumanPopulationOrdered();
    ReservoirPopulationOrdered();
    InfectiousFeedOrdered();
  }

  /** The names declared before function `i`, as the union of the three kinds. */
  lemma DeclaredBefore(i: nat)
    requires i <= |FunctionOrder|
    ensures Elems(SpeciesOrder + ParameterOrder + FunctionOrder[..i])
         == Elems(SpeciesOrder) + Elems(ParameterOrder) + Elems(FunctionOrder[..i])
  {
    ElemsConcat(SpeciesOrder, ParameterOrder);
    ElemsConcat(SpeciesOrder + ParameterOrder, FunctionOrder[..i]);
  }

  lemma HumanPopulationOrdered()
    ensures Resolves(HumanPopulationBody, Elems(SpeciesOrder + ParameterOrder + FunctionOrder[..0]))
  {
    PopulationFunctionsResolve();
    DeclaredBefore(0);
    ResolvesMonotone(HumanPopulationBody, HumanPopulationNames, Elems(SpeciesOrder + ParameterOrder + FunctionOrder[..0]));
  }

  lemma ReservoirPopulationOrdered()
    ensures Resolves(ReservoirPopulationBody, Elems(SpeciesOrder + ParameterOrder + FunctionOrder[..1]))
  {
    PopulationFunctionsResolve();
    DeclaredBefore(1);
    ResolvesMonotone(ReservoirPopulationBody, ReservoirPopulationNames, Elems(SpeciesOrder + ParameterOrder + FunctionOrder[..1]));
  }

  lemma InfectiousFeedOrdered()
    ensures Resolves(InfectiousFeedBody, Elems(SpeciesOrder + ParameterOrder + FunctionOrder[..2]))
  {
    InfectiousFeedResolves();
    InfectiousFeedNamesDeclared();
    DeclaredBefore(2);
    assert FunctionOrder[..2] == ["human-population", "reservoir-population"];
    ResolvesMonotone(InfectiousFeedBody, InfectiousFeedNames, Elems(SpeciesOrder + ParameterOrder + FunctionOrder[..2]));
  }

  /** The two population functions sum species only. */
  lemma PopulationFunctionsResolve()
    ensures Resolves(HumanPopulationBody, HumanPopulationNames)
    ensures Resolves(ReservoirPopulationBody, ReservoirPopulationNames)
    ensures HumanPopulationNames <= Elems(SpeciesOrder)
    ensures ReservoirPopulationNames <= Elems(SpeciesOrder)
  {
  }

  lemma InfectiousFeedNamesDeclared()
    ensures InfectiousFeedNames <= Elems(SpeciesOrder) + Elems(ParameterOrder) + Elems(["human-population", "reservoir-population"])
  {
  }

  /** Functions refer only to species, parameters and earlier functions, and every symbol
      of every expression is declared. */
  lemma ExpressionsResolve(m: Model, kwargs: Populations)
    requires Declares(m, kwargs)
    ensures FunctionsOrdered(m)
    ensures SymbolsResolve(m)
  {
    TableFunctionsOrdered(m, kwargs);
    DeclaredIsNamespace(m, kwargs);
    InfectionPropensitiesResolve();
    ReservoirPropensitiesResolve();
    VitalPropensitiesResolve();
    var all := Elems(Namespace(m));
    forall i | 0 <= i < |m.reactions| ensures Resolves(m.reactions[i].propensity, all) {
      ResolvesMonotone(m.reactions[i].propensity, Declared, all);
    }
    forall i | 0 <= i < |m.functions| ensures Resolves(m.functions[i].body, all) {
      var before := Elems(SpeciesNames(m) + ParameterNames(m) + FunctionNames(m)[..i]);
      assert before <= all;
      ResolvesMonotone(m.functions[i].body, before, all);
    }
  }

  /** A first-order rate `(* parameter species)` has its two operands. */
  lemma RateWellFormed(parameter: string, species: string)
    ensures WellFormed(Rate(parameter, species))
  {
    assert Rate(parameter, species).args[0] == Sym(parameter);
    assert Rate(parameter, species).args[1] == Sym(species);
  }

  /** A biting infection `(/ (* beta susceptible tsetse-infectious) population)` is well formed. */
  lemma BitingWellFormed(beta: string, susceptible: string, population: string)
    ensures WellFormed(BitingInfection(beta, susceptible, population))
  {
    var product := Apply(Times, [Sym(beta), Sym(susceptible), Sym("tsetse-infectious")]);
    assert product.args[0] == Sym(beta) && product.args[1] == Sym(susceptible) && product.args[2] == Sym("tsetse-infectious");
    assert WellFormed(product);
    assert BitingInfection(beta, susceptible, population).args[0] == product;
  }

  lemma FunctionBodiesWellFormed()
    ensures forall i | 0 <= i < |HatFunctions| :: WellFormed(HatFunctions[i].body)
  {
    var human := Apply(Times, [Sym("p-human-feed"), Apply(Divide, [Sym("human-infectious-one"), Sym("human-population")])]);
    var reservoir := Apply(Times, [Sym("p-reservoir-feed"), Apply(Divide, [Sym("reservoir-infectious"), Sym("reservoir-population")])]);
    assert WellFormed(human) && WellFormed(reservoir);
    assert WellFormed(Apply(Plus, [human, reservoir]));
  }

  lemma InfectionPropensitiesWellFormed()
    ensures forall i | 0 <= i < 10 :: WellFormed(HatReactions[i].propensity)
  {
    BitingWellFormed("beta-h", "human-susceptible", "human-population");
    RateWellFormed("sigma-h", "human-exposed");
    RateWellFormed("phi-h", "human-infectious-one");
    RateWellFormed("omega-h", "human-infectious-two");
    RateWellFormed("sigma-v", "tsetse-exposed");
    BitingWellFormed("beta-r", "reservoir-susceptible", "reservoir-population");
    RateWellFormed("phi-r", "reservoir-exposed");
    RateWellFormed("omega-r", "reservoir-infectious");
    assert WellFormed(Apply(Minus, [Lit(1.0), Sym("infectious-feed")]));
  }

  lemma VitalPropensitiesWellFormed()
    ensures forall i | 10 <= i < |HatReactions| :: WellFormed(HatReactions[i].propensity)
  {
    forall i | 10 <= i < |HatReactions| ensures WellFormed(HatReactions[i].propensity) {
      var r := HatReactions[i];
      assert r.propensity == Rate(r.propensity.args[0].name, r.reactants[0]);
      RateWellFormed(r.propensity.args[0].name, r.reactants[0]);
    }
  }

  /** `-` and `/` always have two operands, `+` and `*` at least one. */
  lemma OperatorsRespectArity(m: Model, kwargs: Populations)
    requires Declares(m, kwargs)
    ensures OperatorsWellFormed(m)
  {
    FunctionBodiesWellFormed();
    InfectionPropensitiesWellFormed();
    VitalPropensitiesWellFormed();
  }

  /** No function reaches itself through references. */
  lemma FunctionGraphAcyclic(m: Model, kwargs: Populations)
    requires Declares(m, kwargs)
    ensures Acyclic(m)
  {
    NamesUnique(m, kwargs);
    TableFunctionsOrdered(m, kwargs);
    OrderedFunctionsAcyclic(m);
  }

  /** The built network passes every structural check. */
  lemma ModelValid(kwargs: Populations)
    ensures Valid(BuildModel(kwargs))
  {
    var m := BuildModel(kwargs);
    BuildModelTables(kwargs);
    NamesUnique(m, kwargs);
    ReactionsUseDeclaredSpecies(m, kwargs);
    ExpressionsResolve(m, kwargs);
    OperatorsRespectArity(m, kwargs);
  }

  // ----- which parameters are in use -----

  lemma RateMentions(parameter: string, species: string, n: string)
    ensures Mentions(Rate(parameter, species), n) <==> n == parameter || n == species
  {
    assert Rate(parameter, species).args[0] == Sym(parameter);
    assert Rate(parameter, species).args[1] == Sym(species);
  }

  lemma BitingMentions(beta: string, susceptible: string, population: string, n: string)
    ensures Mentions(BitingInfection(beta, susceptible, population), n)
        <==> n == beta || n == susceptible || n == "tsetse-infectious" || n == population
  {
    var product := Apply(Times, [Sym(beta), Sym(susceptible), Sym("tsetse-infectious")]);
    assert product.args[0] == Sym(beta) && product.args[1] == Sym(susceptible) && product.args[2] == Sym("tsetse-infectious");
    assert Mentions(product, n) <==> n == beta || n == susceptible || n == "tsetse-infectious";
    var e := BitingInfection(beta, susceptible, population);
    assert e.args[0] == product && e.args[1] == Sym(population);
  }

  /** The names `infectious-feed` mentions are exactly its eight operands. */
  lemma InfectiousFeedMentions(n: string)
    ensures Mentions(InfectiousFeedBody, n) <==>
          n == "p-feed" || n == "p-human-feed" || n == "human-infectious-one" || n == "human-population"
          || n == "p-reservoir-feed" || n == "reservoir-infectious" || n == "reservoir-population" || n == "beta-v"
  {
    var humanShare := Apply(Divide, [Sym("human-infectious-one"), Sym("human-population")]);
    var reservoirShare := Apply(Divide, [Sym("reservoir-infectious"), Sym("reservoir-population")]);
    var human := Apply(Times, [Sym("p-human-feed"), humanShare]);
    var reservoir := Apply(Times, [Sym("p-reservoir-feed"), reservoirShare]);
    assert Mentions(humanShare, n) <==> n == "human-infectious-one" || n == "human-population" by {
      assert humanShare.args[0] == Sym("human-infectious-one") && humanShare.args[1] == Sym("human-population");
    }
    assert Mentions(reservoirShare, n) <==> n == "reservoir-infectious" || n == "reservoir-population" by {
      assert reservoirShare.args[0] == Sym("reservoir-infectious") && reservoirShare.args[1] == Sym("reservoir-population");
    }
    assert Mentions(human, n) <==> n == "p-human-feed" || Mentions(humanShare, n) by {
      assert human.args[0] == Sym("p-human-feed") && human.args[1] == humanShare;
    }
    assert Mentions(reservoir, n) <==> n == "p-reservoir-feed" || Mentions(reservoirShare, n) by {
      assert reservoir.args[0] == Sym("p-reservoir-feed") && reservoir.args[1] == reservoirShare;
    }
    var sum := Apply(Plus, [human, reservoir]);
    assert Mentions(sum, n) <==> Mentions(human, n) || Mentions(reservoir, n) by {
      assert sum.args[0] == human && sum.args[1] == reservoir;
    }
    assert InfectiousFeedBody.args[0] == Sym("p-feed") && InfectiousFeedBody.args[1] == sum;
    assert InfectiousFeedBody.args[2] == Sym("beta-v");
  }

  lemma MuVAbsentFromFunctions()
    ensures forall i | 0 <= i < |HatFunctions| :: !Mentions(HatFunctions[i].body, "mu-v")
  {
    InfectiousFeedMentions("mu-v");
  }

  lemma MuVAbsentFromInfections()
    ensures forall i | 0 <= i < 10 :: !Mentions(HatReactions[i].propensity, "mu-v")
  {
    BitingMentions("beta-h", "human-susceptible", "human-population", "mu-v");
    RateMentions("sigma-h", "human-exposed", "mu-v");
    RateMentions("phi-h", "human-infectious-one", "mu-v");
    RateMentions("omega-h", "human-infectious-two", "mu-v");
    assert !Mentions(Apply(Minus, [Lit(1.0), Sym("infectious-feed")]), "mu-v");
    RateMentions("sigma-v", "tsetse-exposed", "mu-v");
    BitingMentions("beta-r", "reservoir-susceptible", "reservoir-population", "mu-v");
    RateMentions("phi-r", "reservoir-exposed", "mu-v");
    RateMentions("omega-r", "reservoir-infectious", "mu-v");
  }

  /** Every death-birth propensity is a rate times the dying compartment; the vector
      deaths use `mu-h`. */
  lemma VitalPropensities()
    ensures forall i | 10 <= i < 17 :: HatReactions[i].propensity == Rate("mu-h", HatReactions[i].reactants[0])
    ensures forall i | 17 <= i < |HatReactions| :: HatReactions[i].propensity == Rate("mu-r", HatReactions[i].reactants[0])
  {
  }

  lemma MuVAbsentFromVitalDynamics()
    ensures forall i | 10 <= i < |HatReactions| :: !Mentions(HatReactions[i].propensity, "mu-v")
  {
    VitalPropensities();
    forall i | 10 <= i < |HatReactions| ensures !Mentions(HatReactions[i].propensity, "mu-v") {
      RateMentions(HatReactions[i].propensity.args[0].name, HatReactions[i].reactants[0], "mu-v");
    }
  }

  /** The vector mortality `mu-v` is declared but no function or propensity uses it:
      the three vector death-births, which return a fly to `tsetse-susceptible`, run at
      the human rate `mu-h`. */
  lemma MuVUnreferenced(m: Model, kwargs: Populations)
    requires Declares(m, kwargs)
    ensures "mu-v" in ParameterNames(m)
    ensures !Referenced(m, "mu-v")
    ensures forall i | 14 <= i < 17 ::
      && m.reactions[i].reactants[0] in TsetseVectors
      && m.reactions[i].products == ["tsetse-susceptible"]
      && m.reactions[i].propensity == Rate("mu-h", m.reactions[i].reactants[0])
  {
    TableNames(m, kwargs);
    MuVAbsentFromFunctions();
    MuVAbsentFromInfections();
    MuVAbsentFromVitalDynamics();
    VitalPropensities();
  }

  lemma HumanInfectionWitnesses()
    ensures Mentions(HatReactions[0].propensity, "beta-h")
    ensures Mentions(HatReactions[1].propensity, "sigma-h")
  {
    BitingMentions("beta-h", "human-susceptible", "human-population", "beta-h");
    RateMentions("sigma-h", "human-exposed", "sigma-h");
  }

  lemma HumanProgressionWitnesses()
    ensures Mentions(HatReactions[2].propensity, "phi-h")
    ensures Mentions(HatReactions[3].propensity, "omega-h")
  {
    RateMentions("phi-h", "human-infectious-one", "phi-h");
    RateMentions("omega-h", "human-infectious-two", "omega-h");
  }

  lemma VectorProgressionWitnesses()
    ensures Mentions(HatReactions[6].propensity, "sigma-v")
    ensures Mentions(HatReactions[7].propensity, "beta-r")
  {
    RateMentions("sigma-v", "tsetse-exposed", "sigma-v");
    BitingMentions("beta-r", "reservoir-susceptible", "reservoir-population", "beta-r");
  }

  lemma ReservoirProgressionWitnesses()
    ensures Mentions(HatReactions[8].propensity, "phi-r")
    ensures Mentions(HatReactions[9].propensity, "omega-r")
  {
    RateMentions("phi-r", "reservoir-exposed", "phi-r");
    RateMentions("omega-r", "reservoir-infectious", "omega-r");
  }

  lemma VitalWitnesses()
    ensures Mentions(HatReactions[10].propensity, "mu-h")
    ensures Mentions(HatReactions[17].propensity, "mu-r")
  {
    RateMentions("mu-h", "human-exposed", "mu-h");
    RateMentions("mu-r", "reservoir-exposed", "mu-r");
  }

  lemma FeedWitnesses()
    ensures Mentions(HatFunctions[2].body, "beta-v")
    ensures Mentions(HatFunctions[2].body, "p-human-feed")
    ensures Mentions(HatFunctions[2].body, "p-reservoir-feed")
    ensures Mentions(HatFunctions[2].body, "p-feed")
  {
    InfectiousFeedMentions("beta-v");
    InfectiousFeedMentions("p-human-feed");
    InfectiousFeedMentions("p-reservoir-feed");
    InfectiousFeedMentions("p-feed");
  }

  /** The parameters some expression uses: all but `mu-v`, in declaration order. */
  const UsedParameters: seq<string> := [
    "sigma-h", "phi-h", "omega-h", "beta-v", "p-human-feed", "p-reservoir-feed", "sigma-v",
    "p-feed", "beta-h", "beta-r", "phi-r", "omega-r", "mu-h", "mu-r"]

  /** Each parameter other than `mu-v` appears in some function body or propensity. */
  lemma UsedParametersReferenced(m: Model, kwargs: Populations)
    requires Declares(m, kwargs)
    ensures Referenced(m, "beta-h") && Referenced(m, "sigma-h") && Referenced(m, "phi-h") && Referenced(m, "omega-h")
    ensures Referenced(m, "sigma-v") && Referenced(m, "beta-r") && Referenced(m, "phi-r") && Referenced(m, "omega-r")
    ensures Referenced(m, "mu-h") && Referenced(m, "mu-r")
    ensures Referenced(m, "beta-v") && Referenced(m, "p-human-feed") && Referenced(m, "p-reservoir-feed") && Referenced(m, "p-feed")
  {
    HumanInfectionWitnesses();
    HumanProgressionWitnesses();
    VectorProgressionWitnesses();
    ReservoirProgressionWitnesses();
    VitalWitnesses();
    FeedWitnesses();
  }

  lemma ParameterOrderSplit()
    ensures ParameterOrder == UsedParameters[..7] + ["mu-v"] + UsedParameters[7..]
  {
  }

  lemma UsedParameterCases(names: seq<string>, n: string)
    requires names == UsedParameters[..7] + ["mu-v"] + UsedParameters[7..]
    requires n in names && n != "mu-v"
    ensures || n == "sigma-h" || n == "phi-h" || n == "omega-h" || n == "beta-v" || n == "p-human-feed"
            || n == "p-reservoir-feed" || n == "sigma-v" || n == "p-feed" || n == "beta-h" || n == "beta-r"
            || n == "phi-r" || n == "omega-r" || n == "mu-h" || n == "mu-r"
  {
    assert n in UsedParameters[..7] || n in UsedParameters[7..];
    assert n in UsedParameters;
  }

  /** Of the fifteen parameters, exactly `mu-v` is never used. */
  lemma ParametersReferenced(m: Model, kwargs: Populations)
    requires Declares(m, kwargs)
    ensures forall n | n in ParameterNames(m) :: Referenced(m, n) <==> n != "mu-v"
  {
    TableNames(m, kwargs);
    MuVUnreferenced(m, kwargs);
    UsedParametersReferenced(m, kwargs);
    ParameterOrderSplit();
    forall n | n in ParameterNames(m) && n != "mu-v" ensures Referenced(m, n) {
      UsedParameterCases(ParameterNames(m), n);
    }
  }
}
