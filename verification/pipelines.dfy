/** Step construction: the builder half of the pipeline engine
    (`Step` and `Step.CreateSteps`).

    Processor definitions, processors, argument objects and controllers are
    type parameters: the model never looks inside them. The processor
    factory (`ProcessorManager.CreateProcessors`) is not part of this model
    and is passed in as an uninterpreted total function. */
module Pipelines {
  import opened Basics
  import Text

  /** A declared step: its processor definitions and an optional args name. */
  datatype StepDefinition<PD> = StepDefinition(processorDefinitions: seq<PD>, argsName: Option<string>)

  /** A materialised step: its processors and the args name it redirects to
      (`None` = the root args). */
  datatype Step<P> = Step(processors: seq<P>, argsName: Option<string>)

  /** The processor factory: definitions, args and (nullable) controller to
      an ordered processor list. */
  type Factory<!PD, !P, !A, !C> = (seq<PD>, A, Option<C>) -> seq<P>

  /** The `Step` constructor: rejects a null processor list and otherwise
      keeps both arguments as given. */
  function NewStep<P>(processors: Option<seq<P>>, argsName: Option<string>): (r: Result<Step<P>>)
    ensures r.Failure? <==> processors.None?
    ensures r.Failure? ==> r.error == ArgumentNull("processors")
    ensures r.Success? ==> r.value.processors == processors.value && r.value.argsName == argsName
  {
    if processors.None? then Failure(ArgumentNull("processors"))
    else Success(Step(processors.value, argsName))
  }

  /** One loop iteration of `CreateStepsPrivate`. */
  function BuildStep<PD, P, A, C>(def: StepDefinition<PD>, args: A, controller: Option<C>,
                                  createProcessors: Factory<PD, P, A, C>): Step<P>
  {
    var made := NewStep(Some(createProcessors(def.processorDefinitions, args, controller)),
                        Text.EmptyToNull(def.argsName));
    made.value
  }

  /** `CreateStepsPrivate`: one step per definition, in definition order,
      every step's processors built against the same args and controller. */
  function CreateStepsPrivate<PD, P, A, C>(defs: seq<StepDefinition<PD>>, args: A, controller: Option<C>,
                                           createProcessors: Factory<PD, P, A, C>): (r: seq<Step<P>>)
    ensures |r| == |defs|
    ensures forall i :: 0 <= i < |defs| ==>
              r[i].processors == createProcessors(defs[i].processorDefinitions, args, controller)
    ensures forall i :: 0 <= i < |defs| ==>
              (r[i].argsName.None? <==> Text.IsNullOrEmpty(defs[i].argsName))
    ensures forall i :: 0 <= i < |defs| ==>
              !Text.IsNullOrEmpty(defs[i].argsName) ==> r[i].argsName == defs[i].argsName
    decreases |defs|
  {
    if |defs| == 0 then []
    else [BuildStep(defs[0], args, controller, createProcessors)]
         + CreateStepsPrivate(defs[1..], args, controller, createProcessors)
  }

  /** `CreateSteps`: rejects null definitions or null args, and otherwise
      materialises the steps of `CreateStepsPrivate` into a list. */
  function CreateSteps<PD, P, A, C>(stepDefinitions: Option<seq<StepDefinition<PD>>>, args: Option<A>,
                                    controller: Option<C>, createProcessors: Factory<PD, P, A, C>)
    : (r: Result<seq<Step<P>>>)
    ensures stepDefinitions.None? ==> r == Failure(ArgumentNull("stepDefinitions"))
    ensures stepDefinitions.Some? && args.None? ==> r == Failure(ArgumentNull("args"))
    ensures r.Success? <==> stepDefinitions.Some? && args.Some?
    ensures r.Success? ==> |r.value| == |stepDefinitions.value|
    ensures r.Success? && stepDefinitions.value == [] ==> r.value == []
    ensures r.Success? ==> r.value == CreateStepsPrivate(stepDefinitions.value, args.value, controller, createProcessors)
    ensures r.Success? ==> forall i :: 0 <= i < |r.value| ==>
              r.value[i].processors == createProcessors(stepDefinitions.value[i].processorDefinitions, args.value, controller)
    ensures r.Success? ==> forall i :: 0 <= i < |r.value| ==>
              (r.value[i].argsName.None? <==> Text.IsNullOrEmpty(stepDefinitions.value[i].argsName))
  {
    if stepDefinitions.None? then Failure(ArgumentNull("stepDefinitions"))
    else if args.None? then Failure(ArgumentNull("args"))
    else Success(CreateStepsPrivate(stepDefinitions.value, args.value, controller, createProcessors))
  }

  /** Building is compositional: the steps of a concatenation are the
      concatenation of the steps, so no step depends on its neighbours. */
  lemma {:induction false} CreateStepsAppend<PD, P, A, C>(a: seq<StepDefinition<PD>>, b: seq<StepDefinition<PD>>,
                                                          args: A, controller: Option<C>,
                                                          createProcessors: Factory<PD, P, A, C>)
    ensures CreateStepsPrivate(a + b, args, controller, createProcessors)
            == CreateStepsPrivate(a, args, controller, createProcessors)
               + CreateStepsPrivate(b, args, controller, createProcessors)
    decreases |a|
  {
    if |a| == 0 {
      assert a + b == b;
    } else {
      assert (a + b)[1..] == a[1..] + b;
      CreateStepsAppend(a[1..], b, args, controller, createProcessors);
    }
  }
}
