/** The parts of a spec that decide where and when tasks and components run, and under which platform policy. */
module SpecTypes {
  import opened Wrappers

  /** A Kubernetes quantity field: absent, or its exact value in the field's smallest unit. */
  type Quantity = Option<int>

  /** `quantitySet`: a zero counts as not set. */
  predicate QuantitySet(q: Quantity) {
    q.Some? && q.value != 0
  }

  datatype Resources = Resources(cpu: Quantity, memory: Quantity, ephemeralStorage: Quantity) {
    /** `ResourcesSet`. */
    predicate AnySet() {
      QuantitySet(cpu) || QuantitySet(memory) || QuantitySet(ephemeralStorage)
    }
  }

  /** When a task runs. `on` is free text in a spec; `OtherOn` is every text that is none of the three phases. */
  datatype TaskOn = PreDeploy | PostDeploy | Manual | OtherOn(text: string) {
    predicate IsHook() {
      PreDeploy? || PostDeploy?
    }
  }

  /** `profiles` tells an omitted list (`None`) from an empty one. */
  datatype Task = Task(
    from: string,
    on: TaskOn,
    after: seq<string>,
    environments: seq<string>,
    profiles: Option<seq<string>>,
    resources: Resources,
    resourcePreset: string)

  /** An empty `domain` asks for the environment's default domain. */
  datatype Expose = Expose(domain: string, apex: bool, subdomain: Option<string>)

  /** `storageClass` is the one of the persistence block, empty when there is none. */
  datatype Component = Component(
    environments: seq<string>,
    profiles: Option<seq<string>>,
    expose: Option<Expose>,
    storageClass: string,
    resources: Resources,
    resourcePreset: string,
    metricsEnabled: bool)

  datatype Spec = Spec(tasks: map<string, Task>, components: map<string, Component>)
}
