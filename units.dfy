/** Temperature conversion and display rounding, over exact reals.
    Temperatures arrive in degrees Celsius. */
module Units {
  import opened JsValues

  /** Degrees Fahrenheit for `c` degrees Celsius. */
  function CToF(c: real): real {
    c * 9.0 / 5.0 + 32.0
  }

  /** Degrees Celsius for `f` degrees Fahrenheit. */
  function FToC(f: real): real {
    (f - 32.0) * 5.0 / 9.0
  }

  /** The two conversions undo each other. */
  lemma ConversionsAreInverse(c: real, f: real)
    ensures FToC(CToF(c)) == c
    ensures CToF(FToC(f)) == f
  {
  }

  /** Converting to Fahrenheit keeps the order of temperatures strictly. */
  lemma CToFStrictlyIncreasing(a: real, b: real)
    ensures a < b <==> CToF(a) < CToF(b)
  {
  }

  /** Freezing, boiling, and the point where both scales agree. */
  lemma CToFLandmarks()
    ensures CToF(0.0) == 32.0
    ensures CToF(100.0) == 212.0
    ensures CToF(-40.0) == -40.0
    ensures forall c: real :: CToF(c) == c <==> c == -40.0
  {
  }

  /** `Math.round`: the integer nearest to `x`, a half going up toward +infinity. */
  function Round(x: real): (n: int)
    ensures n as real - 0.5 <= x < n as real + 0.5
  {
    (x + 0.5).Floor
  }

  /** The half-open window above pins the rounded value down: only one
      integer lies in it. */
  lemma RoundUnique(x: real, n: int)
    requires n as real - 0.5 <= x < n as real + 0.5
    ensures Round(x) == n
  {
  }

  /** Ties round up: an exact half goes to the integer above it. */
  lemma RoundHalfGoesUp(k: int)
    ensures Round(k as real + 0.5) == k + 1
    ensures Round(k as real - 0.5) == k
  {
    RoundUnique(k as real + 0.5, k + 1);
    RoundUnique(k as real - 0.5, k);
  }

  /** The rounded display temperature. A missing unit means "metric"; any
      unit other than "metric" shows degrees Fahrenheit. */
  function FormatTemp(tempC: real, unit: Option<string>): (n: int)
    ensures unit == None || unit == Some("metric") ==>
              n as real - 0.5 <= tempC < n as real + 0.5
    ensures unit != None && unit != Some("metric") ==>
              n as real - 0.5 <= CToF(tempC) < n as real + 0.5
  {
    var u := if unit.Some? then unit.value else "metric";
    if u == "metric" then Round(tempC) else Round(CToF(tempC))
  }

  /** Leaving the unit out is the same as asking for "metric", and every
      other unit string, "imperial" or not, shows Fahrenheit. */
  lemma FormatTempUnits(t: real, u: string)
    ensures FormatTemp(t, None) == FormatTemp(t, Some("metric")) == Round(t)
    ensures u != "metric" ==> FormatTemp(t, Some(u)) == Round(CToF(t))
  {
  }
}
