/** What firing the hat reactions does to the counts: each host population is closed
    (deaths are recycled into susceptible births), and the cumulative counter moves only
    when a human is infected. */
module HatConservation {
  import opened Wrappers
  import opened Seqs
  import opened Expressions
  import opened Network
  import opened Dynamics
  import opened HatModel
  import opened HatProperties

  // ----- the species fall into three closed groups and a counter -----

  /** The species are the human hosts, the counter, the vectors and the reservoir hosts. */
  lemma SpeciesGroups()
    ensures SpeciesOrder == HumanHosts + [Cumulative] + TsetseVectors + ReservoirHosts
    ensures Distinct(HumanHosts) && Distinct(TsetseVectors) && Distinct(ReservoirHosts)
    ensures Cumulative !in HumanHosts && Cumulative !in TsetseVectors && Cumulative !in ReservoirHosts
  {
  }

  /** The two population functions are sums over exactly the human and the reservoir groups. */
  lemma PopulationsAreGroupSums(m: Model, kwargs: Populations)
    requires Declares(m, kwargs)
    ensures m.functions[0].name == "human-population"
    ensures SumOperands(m.functions[0].body) == Some(HumanHosts)
    ensures m.functions[1].name == "reservoir-population"
    ensures SumOperands(m.functions[1].body) == Some(ReservoirHosts)
  {
    var h := SumOperands(HumanPopulationBody).value;
    assert h == HumanHosts by {
      forall k | 0 <= k < |HumanHosts| ensures h[k] == HumanHosts[k] {
        assert HumanPopulationBody.args[k] == Sym(HumanHosts[k]);
      }
    }
    var r := SumOperands(ReservoirPopulationBody).value;
    assert r == ReservoirHosts by {
      forall k | 0 <= k < |ReservoirHosts| ensures r[k] == ReservoirHosts[k] {
        assert ReservoirPopulationBody.args[k] == Sym(ReservoirHosts[k]);
      }
    }
  }

  lemma HumanHostsBalancedFrom0()
    ensures forall i | 0 <= i < 10 :: Balanced(HatReactions[i], HumanHosts)
  {
  }

  lemma HumanHostsBalancedFrom10()
    ensures forall i | 10 <= i < 20 :: Balanced(HatReactions[i], HumanHosts)
  {
  }

  lemma TsetseVectorsBalancedFrom0()
    ensures forall i | 0 <= i < 10 :: Balanced(HatReactions[i], TsetseVectors)
  {
  }

  lemma TsetseVectorsBalancedFrom10()
    ensures forall i | 10 <= i < 20 :: Balanced(HatReactions[i], TsetseVectors)
  {
  }

  lemma ReservoirHostsBalancedFrom0()
    ensures forall i | 0 <= i < 10 :: Balanced(HatReactions[i], ReservoirHosts)
  {
  }

  lemma ReservoirHostsBalancedFrom10()
    ensures forall i | 10 <= i < 20 :: Balanced(HatReactions[i], ReservoirHosts)
  {
  }

  /** Every reaction of the built model moves units within each host group only. */
  lemma ReactionsBalanced(m: Model, kwargs: Populations)
    requires Declares(m, kwargs)
    ensures forall r | r in m.reactions ::
      Balanced(r, HumanHosts) && Balanced(r, TsetseVectors) && Balanced(r, ReservoirHosts)
  {
    HumanHostsBalancedFrom0();
    HumanHostsBalancedFrom10();
    TsetseVectorsBalancedFrom0();
    TsetseVectorsBalancedFrom10();
    ReservoirHostsBalancedFrom0();
    ReservoirHostsBalancedFrom10();
    forall r | r in m.reactions
      ensures Balanced(r, HumanHosts) && Balanced(r, TsetseVectors) && Balanced(r, ReservoirHosts)
    {
      var i :| 0 <= i < |HatReactions| && HatReactions[i] == r;
    }
  }

  /** A run of the model's reactions keeps the human, vector and reservoir totals. */
  lemma RunConservesHosts(m: Model, kwargs: Populations, s: State, rs: seq<Reaction>, t: State)
    requires Declares(m, kwargs)
    requires forall k | 0 <= k < |rs| :: rs[k] in m.reactions
    requires Run(s, rs) == Some(t)
    ensures Total(t, HumanHosts) == Total(s, HumanHosts)
    ensures Total(t, TsetseVectors) == Total(s, TsetseVectors)
    ensures Total(t, ReservoirHosts) == Total(s, ReservoirHosts)
  {
    SpeciesGroups();
    ReactionsBalanced(m, kwargs);
    assert forall r | r in rs :: r in m.reactions;
    RunConserves(s, rs, t, HumanHosts);
    RunConserves(s, rs, t, TsetseVectors);
    RunConserves(s, rs, t, ReservoirHosts);
  }

  /** One firing keeps the three host totals. */
  lemma FiringConservesHosts(m: Model, kwargs: Populations, s: State, r: Reaction, t: State)
    requires Declares(m, kwargs)
    requires r in m.reactions
    requires Fire(s, r) == Some(t)
    ensures Total(t, HumanHosts) == Total(s, HumanHosts)
    ensures Total(t, TsetseVectors) == Total(s, TsetseVectors)
    ensures Total(t, ReservoirHosts) == Total(s, ReservoirHosts)
  {
    assert Run(s, [r]) == Some(t) by {
      assert [r][1..] == [];
    }
    RunConservesHosts(m, kwargs, s, [r], t);
  }

  // ----- the cumulative-infection counter -----

  lemma CounterOnlyFromInfectionFrom0()
    ensures forall i | 0 <= i < 10 :: Count(HatReactions[i].reactants, Cumulative) == 0
    ensures forall i | 0 <= i < 10 ::
      Count(HatReactions[i].products, Cumulative) == if HatReactions[i].name == "human-infection" then 1 else 0
  {
  }

  lemma CounterOnlyFromInfectionFrom10()
    ensures forall i | 10 <= i < 20 :: Count(HatReactions[i].reactants, Cumulative) == 0
    ensures forall i | 10 <= i < 20 ::
      Count(HatReactions[i].products, Cumulative) == if HatReactions[i].name == "human-infection" then 1 else 0
  {
  }

  /** Only `human-infection` touches the counter, and it adds exactly one. */
  lemma CounterOnlyFromInfection()
    ensures forall i | 0 <= i < |HatReactions| :: Count(HatReactions[i].reactants, Cumulative) == 0
    ensures forall i | 0 <= i < |HatReactions| ::
      Count(HatReactions[i].products, Cumulative) == if HatReactions[i].name == "human-infection" then 1 else 0
  {
    CounterOnlyFromInfectionFrom0();
    CounterOnlyFromInfectionFrom10();
  }

  lemma {:induction false} CounterTally(rs: seq<Reaction>)
    requires forall k | 0 <= k < |rs| :: rs[k] in HatReactions
    ensures Produced(rs, Cumulative) == Firings(rs, "human-infection")
    ensures Consumed(rs, Cumulative) == 0
  {
    if rs != [] {
      CounterOnlyFromInfection();
      var i :| 0 <= i < |HatReactions| && HatReactions[i] == rs[0];
      assert forall k | 0 <= k < |rs[1..]| :: rs[1..][k] == rs[k + 1];
      CounterTally(rs[1..]);
    }
  }

  /** After any run, the counter has grown by the number of `human-infection` firings. */
  lemma RunCountsInfections(m: Model, kwargs: Populations, s: State, rs: seq<Reaction>, t: State)
    requires Declares(m, kwargs)
    requires forall k | 0 <= k < |rs| :: rs[k] in m.reactions
    requires Cumulative in s
    requires Run(s, rs) == Some(t)
    ensures t[Cumulative] == s[Cumulative] + Firings(rs, "human-infection")
    ensures t[Cumulative] >= s[Cumulative]
  {
    CounterTally(rs);
    RunNetChange(s, rs, t, Cumulative);
  }

  /** One firing adds one to the counter for an infection and nothing otherwise. */
  lemma FiringCountsInfection(m: Model, kwargs: Populations, s: State, r: Reaction, t: State)
    requires Declares(m, kwargs)
    requires r in m.reactions
    requires Cumulative in s
    requires Fire(s, r) == Some(t)
    ensures t[Cumulative] == s[Cumulative] + (if r.name == "human-infection" then 1 else 0)
  {
    assert Run(s, [r]) == Some(t) by {
      assert [r][1..] == [];
    }
    RunCountsInfections(m, kwargs, s, [r], t);
  }

  // ----- the populations the command line passes -----

  /** The populations the command-line entry point builds the model with. */
  const MainPopulations: Populations := map[
    "human-susceptible" := 10000,
    "tsetse-susceptible" := 99900,
    "tsetse-infectious" := 100,
    "reservoir-susceptible" := 1000,
    "non-reservoir-hosts" := 1000]

  /** The starting counts those populations give, in species order. */
  const MainCounts: seq<int> := [10000, 0, 0, 0, 0, 0, 99900, 0, 100, 0, 1000, 0, 0, 0]

  /** The starting count of each species under those populations. */
  lemma MainInitialCounts(m: Model)
    requires Declares(m, MainPopulations)
    ensures "non-reservoir-hosts" !in InitialState(m.species)
    ensures forall k | 0 <= k < |SpeciesOrder| ::
      SpeciesOrder[k] in InitialState(m.species) && InitialState(m.species)[SpeciesOrder[k]] == MainCounts[k]
  {
    InitialStateFromPopulations(m, MainPopulations);
    MainLookups();
    assert "non-reservoir-hosts" !in Elems(SpeciesOrder);
  }

  lemma MainLookups()
    ensures "non-reservoir-hosts" !in SpeciesOrder
    ensures forall k | 0 <= k < |SpeciesOrder| :: Lookup(MainPopulations, SpeciesOrder[k]) == MainCounts[k]
  {
  }

  /** The group totals of any state holding those counts. */
  lemma MainTotals(s: State)
    requires forall k | 0 <= k < |SpeciesOrder| :: SpeciesOrder[k] in s && s[SpeciesOrder[k]] == MainCounts[k]
    ensures Total(s, HumanHosts) == 10000
    ensures Total(s, TsetseVectors) == 100000
    ensures Total(s, ReservoirHosts) == 1000
  {
    MainHumanTotal(s);
    MainVectorTotal(s);
    MainReservoirTotal(s);
  }

  lemma MainHumanTotal(s: State)
    requires forall k | 0 <= k < |SpeciesOrder| :: SpeciesOrder[k] in s && s[SpeciesOrder[k]] == MainCounts[k]
    ensures Total(s, HumanHosts) == 10000
  {
    assert forall k | 0 <= k < 5 :: HumanHosts[k] == SpeciesOrder[k] && [10000, 0, 0, 0, 0][k] == MainCounts[k];
    GroupTotal(s, HumanHosts, [10000, 0, 0, 0, 0]);
  }

  lemma MainVectorTotal(s: State)
    requires forall k | 0 <= k < |SpeciesOrder| :: SpeciesOrder[k] in s && s[SpeciesOrder[k]] == MainCounts[k]
    ensures Total(s, TsetseVectors) == 100000
  {
    assert forall k | 0 <= k < 4 :: TsetseVectors[k] == SpeciesOrder[k + 6] && [99900, 0, 100, 0][k] == MainCounts[k + 6];
    GroupTotal(s, TsetseVectors, [99900, 0, 100, 0]);
  }

  lemma MainReservoirTotal(s: State)
    requires forall k | 0 <= k < |SpeciesOrder| :: SpeciesOrder[k] in s && s[SpeciesOrder[k]] == MainCounts[k]
    ensures Total(s, ReservoirHosts) == 1000
  {
    assert forall k | 0 <= k < 4 :: ReservoirHosts[k] == SpeciesOrder[k + 10] && [1000, 0, 0, 0][k] == MainCounts[k + 10];
    GroupTotal(s, ReservoirHosts, [1000, 0, 0, 0]);
  }

  /** With those populations the model starts from 10000 humans, 100000 flies (100 of
      them infectious) and 1000 reservoir hosts; the `non-reservoir-hosts` entry names no
      species and is ignored. */
  lemma MainStartingState(m: Model)
    requires Declares(m, MainPopulations)
    ensures "non-reservoir-hosts" !in InitialState(m.species)
    ensures Cumulative in InitialState(m.species) && InitialState(m.species)[Cumulative] == 0
    ensures Total(InitialState(m.species), HumanHosts) == 10000
    ensures Total(InitialState(m.species), TsetseVectors) == 100000
    ensures Total(InitialState(m.species), ReservoirHosts) == 1000
  {
    MainInitialCounts(m);
    assert SpeciesOrder[5] == Cumulative;
    MainTotals(InitialState(m.species));
  }

  /** A group's total is the sum of its members' counts. */
  lemma {:induction false} GroupTotal(s: State, group: seq<string>, counts: seq<int>)
    requires |counts| == |group|
    requires forall k | 0 <= k < |group| :: group[k] in s && s[group[k]] == counts[k]
    ensures Total(s, group) == Sum(counts)
  {
    if group != [] {
      GroupTotal(s, group[1..], counts[1..]);
    }
  }

  function Sum(xs: seq<int>): int {
    if xs == [] then 0 else xs[0] + Sum(xs[1..])
  }
}
