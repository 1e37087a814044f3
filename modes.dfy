/**
  The narrative mode of the street scene. The scroll handler sets it and
  every animation frame reads it.
 */
module Modes {

  /** The mode names the scene knows. `Research` is part of the vocabulary, but
      the scroll handler never selects it: `sec-research` shows the problem. */
  datatype Mode = Home | Problem | Research | Success | Solution | Benefits | Action

  /** Parked cars are raised in the two opening modes. */
  predicate ParkedVisible(m: Mode)
  {
    m == Home || m == Problem
  }

  /** The protected bike lane (bollards up, green surface) is shown in these modes. */
  predicate SolutionActive(m: Mode)
  {
    m == Solution || m == Success || m == Benefits || m == Action
  }

  /** Bikes look for parked cars in their way only in these modes. */
  predicate SwerveEnabled(m: Mode)
  {
    m == Problem || m == Home
  }

  /** Every mode other than `Research` either shows the parked cars or the
      protected lane, never both. */
  lemma ParkedAndSolutionExclusive(m: Mode)
    ensures !(ParkedVisible(m) && SolutionActive(m))
    ensures m != Research ==> ParkedVisible(m) || SolutionActive(m)
  {
  }
}
