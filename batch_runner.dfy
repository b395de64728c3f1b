/**
 * The invocation list of lenskit's `BatchPipelineRunner`: a runner holds a
 * pipeline and an optional job count, and `predict`, `recommend` and
 * `add_invocation` append fully determined `InvocationSpec` records to its
 * `invocations` list. `run` has no body yet.
 */
module BatchRunner {
  import opened Results

  /** `ItemSource`: no items (`None`) or the user's test items (`"test-items"`). */
  datatype ItemSource = NoItems | TestItems

  /**
   * `InvocationSpec`: a named request for pipeline component outputs, mapping
   * each component to the name its result is reported under. `items`
   * defaults to none and `extra_inputs` to an empty mapping.
   */
  datatype InvocationSpec<V> = InvocationSpec(
    name: string,
    components: map<string, string>,
    items: ItemSource := NoItems,
    extraInputs: map<string, V> := map[])

  /** A spec built with only a name and components has no items and no extra inputs. */
  lemma InvocationSpecDefaults<V>(name: string, components: map<string, string>)
    ensures var s: InvocationSpec<V> := InvocationSpec(name, components);
      s.items == NoItems && s.extraInputs == map[]
  {
  }

  /** The spec `predict(component, output=output)` records. */
  function PredictSpec<V>(component: string, output: string): (s: InvocationSpec<V>)
    ensures s.name == "predict-ratings" && s.items == TestItems && s.extraInputs == map[]
    ensures s.components.Keys == {component} && s.components[component] == output
  {
    InvocationSpec("predict-ratings", map[component := output], TestItems)
  }

  /** The spec `recommend(component, output=output, **extra)` records. */
  function RecommendSpec<V>(component: string, output: string, extra: map<string, V>): (s: InvocationSpec<V>)
    ensures s.name == "recommend" && s.items == NoItems && s.extraInputs == extra
    ensures s.components.Keys == {component} && s.components[component] == output
  {
    InvocationSpec("recommend", map[component := output], extraInputs := extra)
  }

  /** `BatchPipelineRunner`: a pipeline, a job count, and the invocations requested so far. */
  class BatchPipelineRunner<P, V> {
    const pipeline: P
    /** `n_jobs`; `None` leaves the choice to the parallel configuration. */
    const nJobs: Option<int>
    var invocations: seq<InvocationSpec<V>>

    /** `BatchPipelineRunner(pipeline, n_jobs=None)`: no invocations yet. */
    constructor(pipeline: P, nJobs: Option<int> := None)
      ensures this.pipeline == pipeline && this.nJobs == nJobs
      ensures invocations == []
    {
      this.pipeline := pipeline;
      this.nJobs := nJobs;
      invocations := [];
    }

    /** `add_invocation(inv)`: appends `inv`; earlier requests stay where they are. */
    method AddInvocation(inv: InvocationSpec<V>)
      modifies this
      ensures invocations == old(invocations) + [inv]
      ensures |invocations| == |old(invocations)| + 1
      ensures old(invocations) <= invocations && invocations[|invocations| - 1] == inv
    {
      invocations := invocations + [inv];
    }

    /** `predict(component="rating-predictor", output="predictions")`. */
    method Predict(component: string := "rating-predictor", output: string := "predictions")
      modifies this
      ensures invocations == old(invocations) + [PredictSpec(component, output)]
    {
      AddInvocation(PredictSpec(component, output));
    }

    /** `recommend(component="recommender", output="recommendations", **extra)`. */
    method Recommend(component: string := "recommender", output: string := "recommendations",
                     extra: map<string, V> := map[])
      modifies this
      ensures invocations == old(invocations) + [RecommendSpec(component, output, extra)]
    {
      AddInvocation(RecommendSpec(component, output, extra));
    }

    /**
     * `run(test_data)`: not implemented; it produces no results and leaves
     * the runner as it is.
     */
    method Run<T, R>(testData: T) returns (results: Option<R>)
      ensures results == None
    {
      results := None;
    }
  }
}
