# hat: a verified model of the sleeping-sickness reaction network

`build_model` in `hatmodel.py` declares the reaction network of a vector-borne disease:
human African trypanosomiasis, carried between humans and reservoir hosts by tsetse flies.
The declarations go to a compartmental-model builder, and a stochastic solver later runs the network.
This project models the network and the builder calls that create it, as immutable
Dafny data, and proves the structural and population promises the network makes.

- `wrappers.dfy`, `seqs.dfy`: `Option`, duplicate-freedom of sequences, and the element set of a sequence.
- `expressions.dfy` (module `Expressions`): the prefix-notation expressions as a tree.
  - Literal, symbol, or an operator `+ - * /` applied to operands.
  - Arity rules, the symbols an expression uses, resolution against a set of names, and
    reading a `(+ a b ...)` sum back as the list of names it adds.
- `network.dfy` (module `Network`): species, parameters, functions and reactions.
  - The model that the `add_*` calls append to.
  - Name uniqueness, referential integrity, backward-only function references, and the
    acyclicity of the function graph that follows from them.
- `dynamics.dfy` (module `Dynamics`): what a reaction means.
  - Firing consumes one unit per reactant entry and produces one per product entry.
  - A firing that would leave a reactant negative, or produce a species the state does not count, is refused.
  - Runs of firings, per-species net change, and group totals.
- `hatmodel.dfy` (module `HatModel`): the `build_model` declarations.
  - The fourteen species with the `kwargs` lookup that defaults to 0, and the fifteen parameters.
  - The three functions and the twenty reactions, in source order.
  - `BuildModel`, the sequence of declaration loops.
- `properties.dfy` (module `HatProperties`) and `conservation.dfy` (module `HatConservation`):
  what the built network promises for every choice of initial populations.

The code declares 20 reactions:
- 4 human progressions;
- 3 vector reactions;
- 3 reservoir progressions;
- 10 death-births (4 human, 3 vector, 3 reservoir).

The model follows the code. The population promises are stated under two rules:
- Firing a reaction takes one unit from each reactant and gives one unit to each product.
- A firing that would drive a count below zero, or produce a species with no count, does not happen.

The proofs show two facts about the rates:
- Of the fifteen declared parameters, exactly `mu-v` (tsetse mortality) is used by no
  function and no propensity.
- The three vector death-births run at the human mortality rate `mu-h`.

## Model

| member | source | states |
|---|---|---|
| HatModel.AddAllSpecies | hatmodel.py:94-98 | the loop over the species table leaves the model holding its earlier species followed by the table's entries, in table order |
| HatModel.AddAllParameters | hatmodel.py:120-124 | the loop over the parameter table appends the fifteen parameters in table order |
| HatModel.AddAllFunctions | hatmodel.py:126-149 | the function declarations leave the model holding its earlier functions followed by the declared ones, in declaration order |
| HatModel.AddAllReactions | hatmodel.py:133-176 | the reaction declarations leave the model holding its earlier reactions followed by the declared ones, in declaration order |
| HatProperties.BuildModelTables | hatmodel.py:64-178 | the built model is named `hat` and holds exactly the species, parameter, function and reaction tables, in declaration order |
| HatProperties.SpeciesFromPopulations | hatmodel.py:70-92 | there are exactly fourteen species, in the listed order; each is observed and starts from its supplied population, or 0 when its name is not supplied |
| HatProperties.SpeciesNamesFixed | hatmodel.py:73-92 | the species names are the fourteen listed names whatever populations are supplied; `non-reservoir-hosts` (commented out at line 86) is never a species |
| HatProperties.InitialStateFromPopulations | hatmodel.py:70-98 | the state a run starts from has exactly the fourteen species as keys, and each holds its supplied population or 0 |
| HatProperties.TableNames | hatmodel.py:73-176 | the shared namespace is the species, then the parameters, then the functions in declaration order; the reaction names are the twenty declared names in order |
| HatProperties.NamesUnique | hatmodel.py:73-176 | no name is shared by two species, parameters or functions, and no two reactions share a name |
| HatProperties.ReactionsUseDeclaredSpecies | hatmodel.py:133-176 | every reactant and every product of every reaction is a declared species |
| HatProperties.ExpressionsResolve | hatmodel.py:127-176 | every function refers only to species, parameters and functions declared before it, and every symbol of every function body and propensity is a declared name |
| HatProperties.OperatorsRespectArity | hatmodel.py:127-176 | in every expression, `-` and `/` have exactly two operands and `+` and `*` at least one |
| HatProperties.FunctionGraphAcyclic | hatmodel.py:127-149 | no chain of function references leads from a function back to itself |
| HatProperties.ModelValid | hatmodel.py:64-178 | for any supplied populations the built network satisfies all the structural rules together |
| HatProperties.InfectiousFeedMentions | hatmodel.py:149 | `infectious-feed` mentions exactly its eight operands: `p-feed`, `p-human-feed`, `human-infectious-one`, `human-population`, `p-reservoir-feed`, `reservoir-infectious`, `reservoir-population` and `beta-v` |
| HatProperties.MuVUnreferenced | hatmodel.py:109 | `mu-v` is a declared parameter that no function body or propensity mentions; the three vector death-births turn a fly back into `tsetse-susceptible` at rate `mu-h` |
| HatProperties.ParametersReferenced | hatmodel.py:101-176 | a declared parameter is used by some function or propensity exactly when it is not `mu-v` |
| HatConservation.PopulationsAreGroupSums | hatmodel.py:127-128 | `human-population` is the sum of exactly the five human compartments (not the cumulative counter), and `reservoir-population` the sum of exactly the four reservoir compartments |
| HatConservation.ReactionsBalanced | hatmodel.py:133-176 | every reaction takes out of the human, the vector and the reservoir groups exactly as many units as it puts into each |
| HatConservation.FiringConservesHosts | hatmodel.py:160-176 | firing any reaction of the network, from any state, leaves the human total, the tsetse total and the reservoir total unchanged |
| HatConservation.RunConservesHosts | hatmodel.py:160-176 | any run of the network's reactions keeps the three host totals |
| HatConservation.CounterOnlyFromInfection | hatmodel.py:79-133 | no reaction consumes `human-infection-cumulative`, and only `human-infection` produces it, one unit at a time |
| HatConservation.FiringCountsInfection | hatmodel.py:133 | firing `human-infection` raises the cumulative counter by exactly one; firing any other reaction leaves it unchanged |
| HatConservation.RunCountsInfections | hatmodel.py:79-133 | after any run the counter has grown by the number of `human-infection` firings and has never decreased |
| HatConservation.MainStartingState | hatmodel.py:39-44 | with the populations `main` passes to `build_model`, the network starts with 10000 humans, 100000 flies and 1000 reservoir hosts, and the counter at 0; the `non-reservoir-hosts` entry is ignored |
| Network.AddSpeciesUnique | hatmodel.py:94-95 | adding a species keeps the namespace duplicate-free exactly when the namespace was duplicate-free and the new name is fresh |
| Network.AddParameterUnique | hatmodel.py:120-121 | the same for adding a parameter |
| Network.AddFunctionUnique | hatmodel.py:127-128 | the same for adding a function |
| Network.AddReactionUnique | hatmodel.py:133-176 | adding a reaction keeps the reaction names distinct exactly when they were distinct and the new name is fresh |
| Network.OrderedFunctionsAcyclic | hatmodel.py:127-149 | in a model with a unique namespace whose functions refer only to earlier functions, the function-reference graph has no cycle |
| Dynamics.Fire | hatmodel.py:133-176 | a firing succeeds exactly when every reactant has enough units and every product is a counted species; it keeps the set of species and keeps every count non-negative |
| Dynamics.Run | hatmodel.py:133-176 | a run keeps the set of species and the non-negativity of counts |
| Dynamics.RunNetChange | hatmodel.py:133-176 | after a run each count equals its start plus the units the firings produced minus the units they consumed |
| Dynamics.TotalApply | hatmodel.py:160 | a firing changes a group's total by the product entries inside the group minus the reactant entries inside it |
| Dynamics.RunConserves | hatmodel.py:160 | a run of reactions, each balanced on a group, keeps that group's total |
| Dynamics.InitialStateLookup | hatmodel.py:94-98 | when species names are distinct, each species starts from the population it was declared with |
| Expressions.ResolvesIffSymbols | hatmodel.py:127-151 | an expression resolves against a set of names exactly when every symbol it uses is in the set |
| Expressions.MentionsIffSymbol | hatmodel.py:127-151 | an expression mentions a name exactly when the name is among its symbols |

## Left out

- Command-line parsing, the .NET assembly loading (`clr`, the model loader and the solver factory), solver configuration and `load_model`. They are I/O and foreign calls into code that is not part of this model.
- The stochastic simulation, its random seed, the trajectory data and the plotting. The engine is external and random.
- Rates are not modelled, and parameter values are not evaluated.
  - Parameter values are kept as exact reals, written as in the source (`1.0/3`, `1.0/80`, `1.0/5`).
  - Propensities are symbolic trees, used for reference checking only.
  - The division by `human-population` (which can be zero) is therefore not analysed.
  - The propensities of `feed-and-infected` (`infectious-feed`) and `become-non-susceptible` (`(- 1 infectious-feed)`) do not involve `tsetse-susceptible`. The model's firing rule refuses either firing when no susceptible fly is left.
- The parsing of the prefix-notation strings. Each expression is transcribed by hand into the expression tree.
- The commented-out alternative feeding reactions and the commented-out susceptible death-births. They are not part of the built network.
- `cmsmodel.CmsModel` is not part of this model. Its `add_*` calls are modelled as appends, and name uniqueness is a proved property of the result, not a runtime error path.
- `infectious-feed` is declared between the human and the vector reactions in the source. The model keeps functions and reactions in separate sequences, so it builds the same model from all function declarations followed by all reactions.
- One firing moves whole units only. Reaction rates and the time between firings belong to the solver and are not modelled.
