/** The vector-borne disease network of hatmodel.py: humans (S, E, I1, I2, R and a
    cumulative-infection counter), tsetse flies (S, E, I, non-susceptible) and reservoir
    hosts (S, E, I, R), with deaths recycled directly into susceptible births. */
module HatModel {
  import opened Wrappers
  import opened Seqs
  import opened Expressions
  import opened Network
  import opened Dynamics

  /** Initial populations given by name; a species with no entry starts at 0. */
  type Populations = map<string, int>

  function Lookup(kwargs: Populations, name: string): int {
    if name in kwargs then kwargs[name] else 0
  }

  // ----- declarations, in source order -----

  /** The species names, in declaration order. */
  const SpeciesOrder: seq<string> := [
    "human-susceptible", "human-exposed", "human-infectious-one", "human-infectious-two",
    "human-recovered", "human-infection-cumulative",
    "tsetse-susceptible", "tsetse-exposed", "tsetse-infectious", "tsetse-non-susceptible",
    "reservoir-susceptible", "reservoir-exposed", "reservoir-infectious", "reservoir-recovered"]

  const Cumulative: string := "human-infection-cumulative"

  /** The compartments each host population is made of. */
  const HumanHosts: seq<string> := ["human-susceptible", "human-exposed", "human-infectious-one", "human-infectious-two", "human-recovered"]
  const TsetseVectors: seq<string> := ["tsetse-susceptible", "tsetse-exposed", "tsetse-infectious", "tsetse-non-susceptible"]
  const ReservoirHosts: seq<string> := ["reservoir-susceptible", "reservoir-exposed", "reservoir-infectious", "reservoir-recovered"]

  function SpeciesTable(kwargs: Populations): seq<Species> {
    [ Species("human-susceptible",          Lookup(kwargs, "human-susceptible"),          true),
      Species("human-exposed",              Lookup(kwargs, "human-exposed"),              true),
      Species("human-infectious-one",       Lookup(kwargs, "human-infectious-one"),       true),
      Species("human-infectious-two",       Lookup(kwargs, "human-infectious-two"),       true),
      Species("human-recovered",            Lookup(kwargs, "human-recovered"),            true),
      Species("human-infection-cumulative", Lookup(kwargs, "human-infection-cumulative"), true),
      Species("tsetse-susceptible",         Lookup(kwargs, "tsetse-susceptible"),         true),
      Species("tsetse-exposed",             Lookup(kwargs, "tsetse-exposed"),             true),
      Species("tsetse-infectious",          Lookup(kwargs, "tsetse-infectious"),          true),
      Species("tsetse-non-susceptible",     Lookup(kwargs, "tsetse-non-susceptible"),     true),
      Species("reservoir-susceptible",      Lookup(kwargs, "reservoir-susceptible"),      true),
      Species("reservoir-exposed",          Lookup(kwargs, "reservoir-exposed"),          true),
      Species("reservoir-infectious",       Lookup(kwargs, "reservoir-infectious"),       true),
      Species("reservoir-recovered",        Lookup(kwargs, "reservoir-recovered"),        true) ]
  }

  const ParameterTable: seq<Parameter> := [
    Parameter("sigma-h", 0.0833),
    Parameter("phi-h", 0.0019),
    Parameter("omega-h", 0.006),
    Parameter("beta-v", 0.065),
    Parameter("p-human-feed", 0.05),
    Parameter("p-reservoir-feed", 0.23),
    Parameter("sigma-v", 0.034),
    Parameter("mu-v", 0.03),
    Parameter("p-feed", 1.0 / 3.0),
    Parameter("beta-h", 1.0),
    Parameter("beta-r", 1.0),
    Parameter("phi-r", 0.0019),
    Parameter("omega-r", 0.006),
    Parameter("mu-h", 1.0 / 80.0),
    Parameter("mu-r", 1.0 / 5.0)]

  /** `(+ human-susceptible human-exposed human-infectious-one human-infectious-two human-recovered)` */
  const HumanPopulationBody: Expr :=
    Apply(Plus, [Sym("human-susceptible"), Sym("human-exposed"), Sym("human-infectious-one"),
                 Sym("human-infectious-two"), Sym("human-recovered")])

  /** `(+ reservoir-susceptible reservoir-exposed reservoir-infectious reservoir-recovered)` */
  const ReservoirPopulationBody: Expr :=
    Apply(Plus, [Sym("reservoir-susceptible"), Sym("reservoir-exposed"), Sym("reservoir-infectious"),
                 Sym("reservoir-recovered")])

  /** `(* p-feed (+ (* p-human-feed (/ human-infectious-one human-population))
                    (* p-reservoir-feed (/ reservoir-infectious reservoir-population))) beta-v)` */
  const InfectiousFeedBody: Expr :=
    Apply(Times, [
      Sym("p-feed"),
      Apply(Plus, [
        Apply(Times, [Sym("p-human-feed"), Apply(Divide, [Sym("human-infectious-one"), Sym("human-population")])]),
        Apply(Times, [Sym("p-reservoir-feed"), Apply(Divide, [Sym("reservoir-infectious"), Sym("reservoir-population")])])]),
      Sym("beta-v")])

  /** `(* rate species)`, the shape of every first-order propensity. */
  function Rate(parameter: string, species: string): Expr {
    Apply(Times, [Sym(parameter), Sym(species)])
  }

  /** `(/ (* beta host-susceptible tsetse-infectious) host-population)` */
  function BitingInfection(beta: string, susceptible: string, population: string): Expr {
    Apply(Divide, [Apply(Times, [Sym(beta), Sym(susceptible), Sym("tsetse-infectious")]), Sym(population)])
  }

  /** The function declarations, in the order they are made. */
  const HatFunctions: seq<Function> := [
    Function("human-population", HumanPopulationBody),
    Function("reservoir-population", ReservoirPopulationBody),
    Function("infectious-feed", InfectiousFeedBody)]

  /** The reaction declarations, in the order they are made: human S->E->I1->I2->R,
      vector S->E->I and S->N, reservoir S->E->I->R, then the vital dynamics that
      recycle each death directly into a susceptible birth. */
  const HatReactions: seq<Reaction> := [
    Reaction("human-infection", ["human-susceptible"], ["human-exposed", "human-infection-cumulative"], BitingInfection("beta-h", "human-susceptible", "human-population")),
    Reaction("human-exposed-infectious", ["human-exposed"], ["human-infectious-one"], Rate("sigma-h", "human-exposed")),
    Reaction("human-infectious-progression", ["human-infectious-one"], ["human-infectious-two"], Rate("phi-h", "human-infectious-one")),
    Reaction("human-recovery", ["human-infectious-two"], ["human-recovered"], Rate("omega-h", "human-infectious-two")),
    Reaction("feed-and-infected", ["tsetse-susceptible"], ["tsetse-exposed"], Sym("infectious-feed")),
    Reaction("become-non-susceptible", ["tsetse-susceptible"], ["tsetse-non-susceptible"], Apply(Minus, [Lit(1.0), Sym("infectious-feed")])),
    Reaction("tsetse-progress-to-infectious", ["tsetse-exposed"], ["tsetse-infectious"], Rate("sigma-v", "tsetse-exposed")),
    Reaction("reservoir-infection", ["reservoir-susceptible"], ["reservoir-exposed"], BitingInfection("beta-r", "reservoir-susceptible", "reservoir-population")),
    Reaction("reservoir-exposed-infectious", ["reservoir-exposed"], ["reservoir-infectious"], Rate("phi-r", "reservoir-exposed")),
    Reaction("reservoir-recovery", ["reservoir-infectious"], ["reservoir-recovered"], Rate("omega-r", "reservoir-infectious")),
    Reaction("human-exposed-death-birth", ["human-exposed"], ["human-susceptible"], Rate("mu-h", "human-exposed")),
    Reaction("human-infectious-one-death-birth", ["human-infectious-one"], ["human-susceptible"], Rate("mu-h", "human-infectious-one")),
    Reaction("human-infectious-two-death-birth", ["human-infectious-two"], ["human-susceptible"], Rate("mu-h", "human-infectious-two")),
    Reaction("human-recovered-death-birth", ["human-recovered"], ["human-susceptible"], Rate("mu-h", "human-recovered")),
    Reaction("vector-exposed-death-birth", ["tsetse-exposed"], ["tsetse-susceptible"], Rate("mu-h", "tsetse-exposed")),
    Reaction("vector-infectious-death-birth", ["tsetse-infectious"], ["tsetse-susceptible"], Rate("mu-h", "tsetse-infectious")),
    Reaction("vector-non-susceptible-death-birth", ["tsetse-non-susceptible"], ["tsetse-susceptible"], Rate("mu-h", "tsetse-non-susceptible")),
    Reaction("reservoir-exposed-death-birth", ["reservoir-exposed"], ["reservoir-susceptible"], Rate("mu-r", "reservoir-exposed")),
    Reaction("reservoir-infectious-death-birth", ["reservoir-infectious"], ["reservoir-susceptible"], Rate("mu-r", "reservoir-infectious")),
    Reaction("reservoir-recovered-death-birth", ["reservoir-recovered"], ["reservoir-susceptible"], Rate("mu-r", "reservoir-recovered"))]

  /** The model as the builder produces it: the species, the parameters, then the
      functions and the reactions. The builder declares `infectious-feed` between the
      human and the vector reactions; functions and reactions are kept in separate
      sequences, so that interleaving leaves the built model unchanged. */
  function BuildModel(kwargs: Populations): Model {
    var m := AddAllParameters(AddAllSpecies(NewModel("hat"), SpeciesTable(kwargs)), ParameterTable);
    AddAllReactions(AddAllFunctions(m, HatFunctions), HatReactions)
  }

  /** The loop that adds every species of the table, in order. */
  function AddAllSpecies(m: Model, sps: seq<Species>): (m': Model)
    ensures m' == m.(species := m.species + sps)
    decreases |sps|
  {
    if sps == [] then m
    else AddAllSpecies(AddSpecies(m, sps[0].name, sps[0].population, sps[0].observe), sps[1..])
  }

  /** The loop that adds every parameter of the table, in order. */
  function AddAllParameters(m: Model, ps: seq<Parameter>): (m': Model)
    ensures m' == m.(parameters := m.parameters + ps)
    decreases |ps|
  {
    if ps == [] then m
    else AddAllParameters(AddParameter(m, ps[0].name, ps[0].value), ps[1..])
  }

  /** The declarations that add every function of the table, in order. */
  function AddAllFunctions(m: Model, fs: seq<Function>): (m': Model)
    ensures m' == m.(functions := m.functions + fs)
    decreases |fs|
  {
    if fs == [] then m
    else AddAllFunctions(AddFunction(m, fs[0].name, fs[0].body), fs[1..])
  }

  /** The declarations that add every reaction of the table, in order. */
  function AddAllReactions(m: Model, rs: seq<Reaction>): (m': Model)
    ensures m' == m.(reactions := m.reactions + rs)
    decreases |rs|
  {
    if rs == [] then m
    else AddAllReactions(AddReaction(m, rs[0].name, rs[0].reactants, rs[0].products, rs[0].propensity), rs[1..])
  }
}
