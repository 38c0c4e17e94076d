/** The experiment table as declared in YAML. Weights, rates and scores are reals. */
module Experiments {
  import opened Outcomes

  datatype Strategy = Bandit | Shadow | Split
  datatype Variant = Variant(agent: string, weight: real)

  datatype ExperimentConfig = ExperimentConfig(
    name: string, strategy: Strategy, variants: seq<Variant>, stickyByUser: bool,
    primary: Option<string>, samplingRate: Option<real>,
    metric: Option<string>, epsilon: Option<real>, minSamples: Option<nat>, banditWindowSeconds: Option<nat>)

  /** What validation guarantees about the weights of a `split` experiment. */
  predicate PositiveWeights(variants: seq<Variant>) {
    forall v | v in variants :: v.weight > 0.0
  }

  predicate DistinctAgents(variants: seq<Variant>) {
    forall i, j | 0 <= i < j < |variants| :: variants[i].agent != variants[j].agent
  }
}
