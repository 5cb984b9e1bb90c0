/** How an operation with external effects ends; after `Crashed` nothing more runs. */
module Effects {
  datatype Outcome = Done | Failed | Crashed

  /** What an effect adds to a count of faults. */
  function Toll(o: Outcome): nat { if o == Done then 0 else 1 }
}
