/** The meaning of a reaction's reactant and product lists: firing it consumes one unit
    of each reactant entry and produces one unit of each product entry. A reaction may
    fire only when that leaves no count negative. */
module Dynamics {
  import opened Wrappers
  import opened Seqs
  import opened Network

  /** Current counts, keyed by species name. */
  type State = map<string, int>

  /** How often `n` occurs in a reactant or product list. */
  function Count(names: seq<string>, n: string): nat {
    multiset(names)[n]
  }

  /** The counts a model starts from; a later declaration of a name overrides an earlier one. */
  function InitialState(sps: seq<Species>): (s: State)
    ensures s.Keys == Elems(NamesOf(sps))
  {
    if sps == [] then map[]
    else
      var last := sps[|sps| - 1];
      assert NamesOf(sps) == NamesOf(sps[..|sps| - 1]) + [last.name];
      InitialState(sps[..|sps| - 1])[last.name := last.population]
  }

  predicate NonNegative(s: State) {
    forall n | n in s :: s[n] >= 0
  }

  /** The stoichiometric update, without the non-negativity check. */
  function Apply(s: State, r: Reaction): (t: State)
    ensures t.Keys == s.Keys
  {
    map n | n in s :: s[n] - Count(r.reactants, n) + Count(r.products, n)
  }

  /** Every reactant is present in at least the number of units the reaction consumes,
      and every product is a species the state counts, so no produced unit is lost. */
  predicate Enabled(s: State, r: Reaction) {
    && (forall n | n in r.reactants :: n in s && s[n] >= Count(r.reactants, n))
    && (forall n | n in r.products :: n in s)
  }

  /** One firing; refused when it would drive a reactant below zero or produce a species
      the state does not count. */
  function Fire(s: State, r: Reaction): (t: Option<State>)
    ensures t.Some? <==> Enabled(s, r)
    ensures t.Some? ==> t.value.Keys == s.Keys
    ensures t.Some? && NonNegative(s) ==> NonNegative(t.value)
  {
    if Enabled(s, r) then Some(Apply(s, r)) else None
  }

  /** Fires the reactions in order; refused as soon as one firing is. */
  function Run(s: State, rs: seq<Reaction>): (t: Option<State>)
    ensures t.Some? ==> t.value.Keys == s.Keys
    ensures t.Some? && NonNegative(s) ==> NonNegative(t.value)
    decreases |rs|
  {
    if rs == [] then Some(s)
    else
      match Fire(s, rs[0])
      case None => None
      case Some(s') => Run(s', rs[1..])
  }

  // ----- per-species effect -----

  /** A species that a reaction neither consumes nor produces keeps its count. */
  lemma ApplyUntouched(s: State, r: Reaction, n: string)
    requires n in s && n !in r.reactants && n !in r.products
    ensures Apply(s, r)[n] == s[n]
  {
  }

  /** Total units of `n` produced by a sequence of firings. */
  function Produced(rs: seq<Reaction>, n: string): nat {
    if rs == [] then 0 else Count(rs[0].products, n) + Produced(rs[1..], n)
  }

  /** Total units of `n` consumed by a sequence of firings. */
  function Consumed(rs: seq<Reaction>, n: string): nat {
    if rs == [] then 0 else Count(rs[0].reactants, n) + Consumed(rs[1..], n)
  }

  /** How many of the firings are of the reaction named `name`. */
  function Firings(rs: seq<Reaction>, name: string): nat {
    if rs == [] then 0 else (if rs[0].name == name then 1 else 0) + Firings(rs[1..], name)
  }

  /** After a run, each count has moved by what the firings produced minus what they consumed. */
  lemma {:induction false} RunNetChange(s: State, rs: seq<Reaction>, t: State, n: string)
    requires n in s
    requires Run(s, rs) == Some(t)
    ensures t[n] == s[n] + Produced(rs, n) - Consumed(rs, n)
    decreases |rs|
  {
    if rs != [] {
      var s' := Apply(s, rs[0]);
      assert Fire(s, rs[0]) == Some(s');
      RunNetChange(s', rs[1..], t, n);
    }
  }

  // ----- totals over a group of species -----

  function Pop(s: State, n: string): int {
    if n in s then s[n] else 0
  }

  /** The summed count of a group of species. */
  function Total(s: State, group: seq<string>): int {
    if group == [] then 0 else Pop(s, group[0]) + Total(s, group[1..])
  }

  /** How many entries of `names` lie in `group`. */
  function Inside(names: seq<string>, group: seq<string>): nat {
    if names == [] then 0 else (if names[0] in group then 1 else 0) + Inside(names[1..], group)
  }

  /** Splitting a group at its first member splits the count of entries inside it. */
  lemma {:induction false} InsideSplit(names: seq<string>, g: string, rest: seq<string>)
    requires g !in rest
    ensures Inside(names, [g] + rest) == Count(names, g) + Inside(names, rest)
  {
    if names != [] {
      assert names == [names[0]] + names[1..];
      assert multiset(names) == multiset{names[0]} + multiset(names[1..]);
      InsideSplit(names[1..], g, rest);
    }
  }

  /** A firing changes a group's total by the products inside the group minus the
      reactants inside it. */
  lemma {:induction false} TotalApply(s: State, r: Reaction, group: seq<string>)
    requires Distinct(group)
    requires Enabled(s, r)
    ensures Total(Apply(s, r), group) == Total(s, group) - Inside(r.reactants, group) + Inside(r.products, group)
  {
    if group != [] {
      var g, rest := group[0], group[1..];
      assert group == [g] + rest;
      assert Distinct(rest) && g !in rest by {
        DistinctConcat([g], rest);
      }
      TotalApply(s, r, rest);
      if g !in s {
        assert g !in r.reactants && g !in r.products;
        assert Count(r.reactants, g) == 0 && Count(r.products, g) == 0;
      }
      InsideSplit(r.reactants, g, rest);
      InsideSplit(r.products, g, rest);
    } else {
      assert Inside(r.reactants, []) == 0 by { InsideEmptyGroup(r.reactants); }
      assert Inside(r.products, []) == 0 by { InsideEmptyGroup(r.products); }
    }
  }

  lemma {:induction false} InsideEmptyGroup(names: seq<string>)
    ensures Inside(names, []) == 0
  {
    if names != [] {
      InsideEmptyGroup(names[1..]);
    }
  }

  /** A reaction moves units within the group as much as it moves them in. */
  predicate Balanced(r: Reaction, group: seq<string>) {
    Inside(r.reactants, group) == Inside(r.products, group)
  }

  /** A run of reactions that are each balanced on a group keeps the group's total. */
  lemma {:induction false} RunConserves(s: State, rs: seq<Reaction>, t: State, group: seq<string>)
    requires Distinct(group)
    requires forall r | r in rs :: Balanced(r, group)
    requires Run(s, rs) == Some(t)
    ensures Total(t, group) == Total(s, group)
    decreases |rs|
  {
    if rs != [] {
      var s' := Apply(s, rs[0]);
      assert Fire(s, rs[0]) == Some(s');
      TotalApply(s, rs[0], group);
      assert rs[0] in rs;
      assert forall r | r in rs[1..] :: r in rs;
      RunConserves(s', rs[1..], t, group);
    }
  }

  /** With distinct names, each declared species starts from its declared population. */
  lemma {:induction false} InitialStateLookup(sps: seq<Species>, i: int)
    requires Distinct(NamesOf(sps))
    requires 0 <= i < |sps|
    ensures InitialState(sps)[sps[i].name] == sps[i].population
  {
    var k := |sps| - 1;
    if i < k {
      var prefix := sps[..k];
      assert NamesOf(sps) == NamesOf(prefix) + [sps[k].name];
      DistinctConcat(NamesOf(prefix), [sps[k].name]);
      assert sps[i] == prefix[i];
      assert NamesOf(sps)[i] != NamesOf(sps)[k];
      InitialStateLookup(prefix, i);
    }
  }
}
