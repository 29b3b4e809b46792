// `Clamp` from the shared math header, over the reals: the lower test comes
// first, so a value at or below the minimum gives the minimum even when the
// bounds are reversed.
module STBNMath {

  function Clamp(value: real, minimum: real, maximum: real): (r: real)
    ensures value <= minimum ==> r == minimum
    ensures minimum < value < maximum ==> r == value
    ensures minimum < value && maximum <= value ==> r == maximum
  {
    if value <= minimum then minimum
    else if value >= maximum then maximum
    else value
  }

  /** With ordered bounds the result lies between them, and it is the value exactly when the value does. */
  lemma ClampInRange(value: real, minimum: real, maximum: real)
    requires minimum <= maximum
    ensures minimum <= Clamp(value, minimum, maximum) <= maximum
    ensures Clamp(value, minimum, maximum) == value <==> minimum <= value <= maximum
  {
  }

  /** Reversed bounds: the minimum wins for any value at or below it, the maximum for any other. */
  lemma ClampReversedBounds(value: real, minimum: real, maximum: real)
    requires maximum < minimum
    ensures Clamp(value, minimum, maximum) == if value <= minimum then minimum else maximum
  {
  }

  /** Clamping twice with the same ordered bounds is clamping once. */
  lemma ClampIdempotent(value: real, minimum: real, maximum: real)
    requires minimum <= maximum
    ensures Clamp(Clamp(value, minimum, maximum), minimum, maximum) == Clamp(value, minimum, maximum)
  {
    ClampInRange(value, minimum, maximum);
  }
}
