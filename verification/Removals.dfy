/** Agents removed at runtime: the admin API tombstones an agent without asking whether an
    experiment, a subagent list or a trigger still names it. */
module Removals {
  import opened Config
  import opened ConfigRules
  import opened Experiments
  import opened Outcomes
  import Fnv
  import Router
  import Seeds

  /** The agents a name can come to: itself, a shadow's primary, or any variant. */
  function Targets(c: ConfigRules.Config, name: string): set<string> {
    var byName := Router.ByName(c.experiments);
    if name !in byName then {name}
    else
      var e := byName[name];
      if e.strategy.Shadow? && e.primary.Some? then {e.primary.value} else set v | v in e.variants :: v.agent
  }

  lemma ResolvesToTarget(c: ConfigRules.Config, name: string, scores: seq<Router.Score>, seed: Seeds.PickSeed)
    requires ExperimentsOk(c)
    ensures Router.ResolvedAgent(Router.ByName(c.experiments), name, scores, seed) in Targets(c, name)
  {
    var byName := Router.ByName(c.experiments);
    if name in byName {
      ExperimentIsRoutable(c, byName[name]);
      assert Router.PickVariant(byName[name], scores, seed).value in byName[name].variants;
    }
  }

  /** Removing agents that are no target of a name leaves its routing total, whatever the
      seed and the scores. */
  lemma RoutingSurvivesRemoval(
      c: ConfigRules.Config, gone: set<string>, name: string, scores: seq<Router.Score>, seed: Seeds.PickSeed)
    requires Sound(c) && (Referenced(c, name) || Routable(c, name)) && Targets(c, name) !! gone
    ensures var agent := Router.ResolvedAgent(Router.ByName(c.experiments), name, scores, seed);
            Servable(c, agent) && agent !in gone
  {
    hide Router.ResolvedAgent, Targets, Servable;
    ValidatedIffSound(c);
    RoutingIsTotal(c, name, scores, seed);
    ResolvesToTarget(c, name, scores, seed);
  }

  // Nothing less will do --------------------------------------------------

  /** Everybody but `agent` has had enough scored turns. */
  function AllButOne(variants: seq<Variant>, agent: string, samples: nat): (r: seq<Router.Score>)
    ensures Router.FindScore(r, agent).None?
    ensures forall v | v in variants && v.agent != agent ::
              Router.FindScore(r, v.agent) == Some(Router.Score(v.agent, 0.0, samples))
  {
    if variants == [] then [] else
      var rest := AllButOne(variants[1..], agent, samples);
      if variants[0].agent == agent then rest else [Router.Score(variants[0].agent, 0.0, samples)] + rest
  }

  /** Scores under which a bandit takes this arm, for every user and draw. */
  lemma ArmIsForced(e: ExperimentConfig, v: Variant, seed: Seeds.PickSeed)
    requires e.strategy.Bandit? && v in e.variants
    ensures var picked := Router.PickVariant(e, AllButOne(e.variants, v.agent, Router.MinSamples(e)), seed);
            picked.Some? && picked.value.agent == v.agent
  {
    var scores, min := AllButOne(e.variants, v.agent, Router.MinSamples(e)), Router.MinSamples(e);
    var forced := Router.Forced(e.variants, scores, min);
    assert Router.IsForced(v, scores, min) && v in forced;
    assert forall w | w in forced :: w.agent == v.agent;
  }

  /** Every target of an agent name, a shadow experiment or a bandit is reached, by some
      scores for every user and draw. */
  lemma TargetIsReached(c: ConfigRules.Config, name: string, agent: string) returns (scores: seq<Router.Score>)
    requires ExperimentsOk(c) && agent in Targets(c, name)
    requires var byName := Router.ByName(c.experiments); name in byName ==> !byName[name].strategy.Split?
    ensures forall seed :: Router.ResolvedAgent(Router.ByName(c.experiments), name, scores, seed) == agent
  {
    var byName := Router.ByName(c.experiments);
    scores := [];
    if name in byName {
      var e := byName[name];
      ExperimentIsRoutable(c, e);
      if e.strategy.Bandit? {
        var v :| v in e.variants && v.agent == agent;
        scores := AllButOne(e.variants, agent, Router.MinSamples(e));
        forall seed: Seeds.PickSeed
          ensures Router.ResolvedAgent(byName, name, scores, seed) == agent
        {
          ArmIsForced(e, v, seed);
        }
      }
    }
  }

  /** For those names, routing stays total if and only if no target is removed. */
  lemma RemovalIsSafeIff(c: ConfigRules.Config, gone: set<string>, name: string)
    requires Sound(c) && Routable(c, name)
    requires var byName := Router.ByName(c.experiments); name in byName ==> !byName[name].strategy.Split?
    ensures (forall scores, seed ::
               Router.ResolvedAgent(Router.ByName(c.experiments), name, scores, seed) !in gone) <==>
            Targets(c, name) !! gone
  {
    hide Router.ResolvedAgent, Targets;
    ValidatedIffSound(c);
    var byName := Router.ByName(c.experiments);
    if Targets(c, name) !! gone {
      forall scores, seed
        ensures Router.ResolvedAgent(byName, name, scores, seed) !in gone
      {
        ResolvesToTarget(c, name, scores, seed);
      }
    } else {
      var agent :| agent in Targets(c, name) && agent in gone;
      var scores := TargetIsReached(c, name, agent);
      var seed := Seeds.PickSeed(0, seq(16, i => 0));
      assert Router.ResolvedAgent(byName, name, scores, seed) == agent;
    }
  }

  /** A split reaches each variant whose share of the seeds is more than one: at some seed it
      picks the removed agent. */
  lemma SplitReachesVariant(variants: seq<Variant>, i: nat) returns (seed: Fnv.u64)
    requires i < |variants| && PositiveWeights(variants) && Router.Total(variants) > 0.0
    requires Router.Share(U64_MAX, variants[i].weight, Router.Total(variants)) > 1.0
    ensures Router.WeightedIndex(variants, seed) == i
  {
    var k := SomeSeedSelects(variants, U64_MAX, i);
    SameTarget(k, Router.Total(variants));
    seed := k;
  }

  lemma SomeSeedSelects(variants: seq<Variant>, m: nat, i: nat) returns (k: nat)
    requires m > 0 && i < |variants| && PositiveWeights(variants) && Router.Total(variants) > 0.0
    requires Router.Share(m, variants[i].weight, Router.Total(variants)) > 1.0
    ensures k <= m && Router.WeightedFrom(variants, Router.Target(k, m, Router.Total(variants)), 0) == i
  {
    Router.SplitIsProportional(variants, m, i);
    var selecting := Router.Selecting(variants, m, i);
    assert selecting != {};
    k :| k in selecting;
  }

  lemma SameTarget(k: nat, total: real)
    ensures Router.TargetOf(k, total) == Router.Target(k, U64_MAX, total)
  {
  }
}
