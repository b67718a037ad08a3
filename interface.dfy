/** lib/interface.ts: what a generator returns for one elapsed time. */
module Interface {

  /** A `Processor` result: the vector to show and whether the animation is over. */
  datatype Frame = Frame(value: seq<real>, done: bool)

  /** A `SingleProcess` result: one component and whether it has settled. */
  datatype Step = Step(value: real, done: bool)
}
