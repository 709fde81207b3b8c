/**
 * The two four-field solvers, the ideal gas law PV = nRT and the dilution
 * law M1V1 = M2V2. Both collect the blank fields into a `missing` list, refuse
 * unless exactly one field is blank, and then solve for that field.
 */
module Solvers {
  import opened Wrappers
  import opened Converters
  import opened Presentation

  /** The gas constant used by the calculator, in L·atm/(mol·K). */
  const R: real := 0.0821

  const ExactlyOneBlankMessage := "Please leave exactly one field empty to solve for that variable."

  /** The number of blank fields. */
  function BlankCount(fields: seq<Option<real>>): (k: nat)
    ensures k <= |fields|
    ensures k == 0 <==> forall i :: 0 <= i < |fields| ==> fields[i].Some?
  {
    if fields == [] then 0
    else (if fields[0].None? then 1 else 0) + BlankCount(fields[1..])
  }

  /** Field `i` is blank and every other field holds a number. */
  predicate OnlyBlank(fields: seq<Option<real>>, i: int) {
    0 <= i < |fields| && fields[i].None? && forall j :: 0 <= j < |fields| && j != i ==> fields[j].Some?
  }

  /** Exactly one field is blank precisely when some field is the only blank one. */
  lemma {:induction false} BlankCountOne(fields: seq<Option<real>>)
    ensures BlankCount(fields) == 1 <==> exists i :: OnlyBlank(fields, i)
  {
    if fields != [] {
      var tail := fields[1..];
      BlankCountOne(tail);
      if BlankCount(fields) == 1 {
        if fields[0].None? {
          assert BlankCount(tail) == 0;
          assert OnlyBlank(fields, 0);
        } else {
          var i :| OnlyBlank(tail, i);
          assert forall j :: 1 <= j < |fields| ==> fields[j] == tail[j - 1];
          assert OnlyBlank(fields, i + 1);
        }
      }
      if i :| OnlyBlank(fields, i) {
        if i == 0 {
          assert forall j :: 0 <= j < |tail| ==> tail[j] == fields[j + 1];
          assert BlankCount(tail) == 0;
        } else {
          assert OnlyBlank(tail, i - 1);
        }
      }
    }
  }

  /** The value of a field once the solved value is written into it when it is blank. */
  function Filled(field: Option<real>, solved: real): real {
    if field.Some? then field.value else solved
  }

  /** The ideal gas law with the calculator's gas constant. */
  predicate GasLaw(pressure: real, volume: real, moles: real, temperature: real) {
    pressure * volume == moles * R * temperature
  }

  /**
   * With exactly one blank field, the quantity the solver divides by is not
   * zero. (With a zero divisor the calculator shows IEEE Infinity or NaN; the
   * model leaves that out.)
   */
  predicate GasDivisorNonzero(pressure: Option<real>, volume: Option<real>, moles: Option<real>, temperature: Option<real>) {
    BlankCount([pressure, volume, moles, temperature]) == 1 ==>
      (pressure.None? ==> volume.Some? && volume.value != 0.0)
      && (volume.None? ==> pressure.Some? && pressure.value != 0.0)
      && (moles.None? ==> temperature.Some? && temperature.value != 0.0)
      && (temperature.None? ==> moles.Some? && moles.value != 0.0)
  }

  /**
   * `calculateIdealGas`: refuses unless exactly one field is blank, and then
   * gives the value of that field that satisfies PV = nRT with the other three,
   * in atm, L, moles or K according to the field. The known fields are not
   * checked for positivity.
   */
  function IdealGas(pressure: Option<real>, volume: Option<real>, moles: Option<real>, temperature: Option<real>): (r: Result<Quantity>)
    requires GasDivisorNonzero(pressure, volume, moles, temperature)
    ensures r.Err? <==> BlankCount([pressure, volume, moles, temperature]) != 1
    ensures r.Err? ==> r.msg == ExactlyOneBlankMessage
    ensures r.Ok? ==> GasLaw(Filled(pressure, r.value.amount), Filled(volume, r.value.amount),
                             Filled(moles, r.value.amount), Filled(temperature, r.value.amount))
    ensures r.Ok? && pressure.None? ==> r.value.unit == "atm"
    ensures r.Ok? && volume.None? ==> r.value.unit == "L"
    ensures r.Ok? && moles.None? ==> r.value.unit == "moles"
    ensures r.Ok? && temperature.None? ==> r.value.unit == "K"
  {
    if BlankCount([pressure, volume, moles, temperature]) != 1 then Err(ExactlyOneBlankMessage)
    else
      FourFields(pressure, volume, moles, temperature);
      if pressure.None? then
        Ok(Quantity((moles.value * R * temperature.value) / volume.value, "atm"))
      else if volume.None? then
        Ok(Quantity((moles.value * R * temperature.value) / pressure.value, "L"))
      else if moles.None? then
        Ok(Quantity((pressure.value * volume.value) / (R * temperature.value), "moles"))
      else
        Ok(Quantity((pressure.value * volume.value) / (moles.value * R), "K"))
  }

  /** With exactly one of four fields blank, that one is blank and the other three hold numbers. */
  lemma FourFields(a: Option<real>, b: Option<real>, c: Option<real>, d: Option<real>)
    requires BlankCount([a, b, c, d]) == 1
    ensures (a.None? && b.Some? && c.Some? && d.Some?) || (a.Some? && b.None? && c.Some? && d.Some?)
            || (a.Some? && b.Some? && c.None? && d.Some?) || (a.Some? && b.Some? && c.Some? && d.None?)
  {
    CountOfFour(a, b, c, d);
  }

  /** An unknown times a nonzero factor equal to a known value is that value over the factor. */
  lemma SolveLinear(x: real, a: real, b: real)
    requires a != 0.0 && x * a == b
    ensures x == b / a
  {
  }

  /** The same with the factor written first. */
  lemma SolveLinearLeft(x: real, a: real, b: real)
    requires a != 0.0 && a * x == b
    ensures x == b / a
  {
  }

  /** The ideal gas solver's value is the only one that completes PV = nRT. */
  lemma IdealGasUnique(pressure: Option<real>, volume: Option<real>, moles: Option<real>, temperature: Option<real>, x: real)
    requires BlankCount([pressure, volume, moles, temperature]) == 1
    requires GasDivisorNonzero(pressure, volume, moles, temperature)
    requires GasLaw(Filled(pressure, x), Filled(volume, x), Filled(moles, x), Filled(temperature, x))
    ensures IdealGas(pressure, volume, moles, temperature).Ok?
    ensures IdealGas(pressure, volume, moles, temperature).value.amount == x
  {
    FourFields(pressure, volume, moles, temperature);
    if pressure.None? {
      SolvesPressure(volume.value, moles.value, temperature.value, x);
    } else if volume.None? {
      SolvesVolume(pressure.value, moles.value, temperature.value, x);
    } else if moles.None? {
      SolvesMoles(pressure.value, volume.value, temperature.value, x);
    } else {
      SolvesTemperature(pressure.value, volume.value, moles.value, x);
    }
  }

  /** A blank pressure is solved as the x with x V = nRT. */
  lemma SolvesPressure(volume: real, moles: real, temperature: real, x: real)
    requires volume != 0.0 && GasLaw(x, volume, moles, temperature)
    ensures IdealGas(None, Some(volume), Some(moles), Some(temperature)) == Ok(Quantity(x, "atm"))
  {
    CountOfFour(None, Some(volume), Some(moles), Some(temperature));
    SolveLinear(x, volume, moles * R * temperature);
    var r := IdealGas(None, Some(volume), Some(moles), Some(temperature));
    assert r.Ok? && r.value.amount == x;
  }

  /** A blank volume is solved as the x with P x = nRT. */
  lemma SolvesVolume(pressure: real, moles: real, temperature: real, x: real)
    requires pressure != 0.0 && GasLaw(pressure, x, moles, temperature)
    ensures IdealGas(Some(pressure), None, Some(moles), Some(temperature)) == Ok(Quantity(x, "L"))
  {
    CountOfFour(Some(pressure), None, Some(moles), Some(temperature));
    SolveLinearLeft(x, pressure, moles * R * temperature);
    var r := IdealGas(Some(pressure), None, Some(moles), Some(temperature));
    assert r.Ok? && r.value.amount == x;
  }

  /** A blank amount of gas is solved as the x with PV = xRT. */
  lemma SolvesMoles(pressure: real, volume: real, temperature: real, x: real)
    requires temperature != 0.0 && GasLaw(pressure, volume, x, temperature)
    ensures IdealGas(Some(pressure), Some(volume), None, Some(temperature)) == Ok(Quantity(x, "moles"))
  {
    CountOfFour(Some(pressure), Some(volume), None, Some(temperature));
    assert x * R * temperature == x * (R * temperature);
    SolveLinear(x, R * temperature, pressure * volume);
    var r := IdealGas(Some(pressure), Some(volume), None, Some(temperature));
    assert r.Ok? && r.value.amount == x;
  }

  /** A blank temperature is solved as the x with PV = nRx. */
  lemma SolvesTemperature(pressure: real, volume: real, moles: real, x: real)
    requires moles != 0.0 && GasLaw(pressure, volume, moles, x)
    ensures IdealGas(Some(pressure), Some(volume), Some(moles), None) == Ok(Quantity(x, "K"))
  {
    CountOfFour(Some(pressure), Some(volume), Some(moles), None);
    assert moles * R * x == x * (moles * R);
    SolveLinear(x, moles * R, pressure * volume);
    var r := IdealGas(Some(pressure), Some(volume), Some(moles), None);
    assert r.Ok? && r.value.amount == x;
  }

  /**
   * Nothing checks the known fields' signs: a negative volume yields a
   * negative pressure, which is then shown in exponential notation.
   */
  lemma IdealGasAcceptsNegative(volume: real, moles: real, temperature: real)
    requires volume < 0.0 && moles * temperature > 0.0
    ensures IdealGas(None, Some(volume), Some(moles), Some(temperature)).Ok?
    ensures IdealGas(None, Some(volume), Some(moles), Some(temperature)).value.amount < 0.0
    ensures NotationFor(IdealGas(None, Some(volume), Some(moles), Some(temperature)).value.amount) == Exponential
  {
    CountOfFour(None, Some(volume), Some(moles), Some(temperature));
    assert moles * R * temperature == R * (moles * temperature);
    var r := IdealGas(None, Some(volume), Some(moles), Some(temperature));
    assert r.Ok? && r.value.amount == (moles * R * temperature) / volume;
    NegativeQuotient(moles * R * temperature, volume);
  }

  /** A positive value over a negative one is negative. */
  lemma NegativeQuotient(a: real, b: real)
    requires a > 0.0 && b < 0.0
    ensures a / b < 0.0
  {
  }

  /**
   * `calculateIdealGas` step by step: push the name of each blank field onto
   * `missing`, refuse unless it holds exactly one name, then solve.
   */
  method CalculateIdealGas(pressure: Option<real>, volume: Option<real>, moles: Option<real>, temperature: Option<real>)
    returns (r: Result<Quantity>)
    requires GasDivisorNonzero(pressure, volume, moles, temperature)
    ensures r == IdealGas(pressure, volume, moles, temperature)
  {
    var missing: seq<string> := [];
    if pressure.None? { missing := missing + ["pressure"]; }
    if volume.None? { missing := missing + ["volume"]; }
    if moles.None? { missing := missing + ["moles"]; }
    if temperature.None? { missing := missing + ["temperature"]; }
    CountOfFour(pressure, volume, moles, temperature);
    if |missing| != 1 {
      return Err(ExactlyOneBlankMessage);
    }
    if pressure.None? {
      r := Ok(Quantity((moles.value * R * temperature.value) / volume.value, "atm"));
    } else if volume.None? {
      r := Ok(Quantity((moles.value * R * temperature.value) / pressure.value, "L"));
    } else if moles.None? {
      r := Ok(Quantity((pressure.value * volume.value) / (R * temperature.value), "moles"));
    } else {
      r := Ok(Quantity((pressure.value * volume.value) / (moles.value * R), "K"));
    }
  }

  /** The blank count of four fields, one field at a time. */
  lemma CountOfFour(a: Option<real>, b: Option<real>, c: Option<real>, d: Option<real>)
    ensures BlankCount([a, b, c, d])
            == (if a.None? then 1 else 0) + (if b.None? then 1 else 0)
             + (if c.None? then 1 else 0) + (if d.None? then 1 else 0)
  {
    assert [d][1..] == [];
    assert BlankCount([d]) == (if d.None? then 1 else 0);
    assert [c, d][1..] == [d];
    assert BlankCount([c, d]) == (if c.None? then 1 else 0) + BlankCount([d]);
    assert [b, c, d][1..] == [c, d];
    assert BlankCount([b, c, d]) == (if b.None? then 1 else 0) + BlankCount([c, d]);
    assert [a, b, c, d][1..] == [b, c, d];
  }

  /** The dilution law. */
  predicate DilutionLaw(m1: real, v1: real, m2: real, v2: real) {
    m1 * v1 == m2 * v2
  }

  /** With exactly one blank field, the quantity the dilution solver divides by is not zero. */
  predicate DilutionDivisorNonzero(m1: Option<real>, v1: Option<real>, m2: Option<real>, v2: Option<real>) {
    BlankCount([m1, v1, m2, v2]) == 1 ==>
      (m1.None? ==> v1.Some? && v1.value != 0.0)
      && (v1.None? ==> m1.Some? && m1.value != 0.0)
      && (m2.None? ==> v2.Some? && v2.value != 0.0)
      && (v2.None? ==> m2.Some? && m2.value != 0.0)
  }

  /**
   * `calculateDilution`: refuses unless exactly one field is blank, and then
   * gives the value of that field that satisfies M1V1 = M2V2, in M for a
   * concentration and L for a volume.
   */
  function Dilution(m1: Option<real>, v1: Option<real>, m2: Option<real>, v2: Option<real>): (r: Result<Quantity>)
    requires DilutionDivisorNonzero(m1, v1, m2, v2)
    ensures r.Err? <==> BlankCount([m1, v1, m2, v2]) != 1
    ensures r.Err? ==> r.msg == ExactlyOneBlankMessage
    ensures r.Ok? ==> DilutionLaw(Filled(m1, r.value.amount), Filled(v1, r.value.amount),
                                  Filled(m2, r.value.amount), Filled(v2, r.value.amount))
    ensures r.Ok? && (m1.None? || m2.None?) ==> r.value.unit == "M"
    ensures r.Ok? && (v1.None? || v2.None?) ==> r.value.unit == "L"
  {
    if BlankCount([m1, v1, m2, v2]) != 1 then Err(ExactlyOneBlankMessage)
    else
      FourFields(m1, v1, m2, v2);
      if m1.None? then Ok(Quantity((m2.value * v2.value) / v1.value, "M"))
      else if v1.None? then Ok(Quantity((m2.value * v2.value) / m1.value, "L"))
      else if m2.None? then Ok(Quantity((m1.value * v1.value) / v2.value, "M"))
      else Ok(Quantity((m1.value * v1.value) / m2.value, "L"))
  }

  /** The dilution solver's value is the only one that completes M1V1 = M2V2. */
  lemma DilutionUnique(m1: Option<real>, v1: Option<real>, m2: Option<real>, v2: Option<real>, x: real)
    requires BlankCount([m1, v1, m2, v2]) == 1
    requires DilutionDivisorNonzero(m1, v1, m2, v2)
    requires DilutionLaw(Filled(m1, x), Filled(v1, x), Filled(m2, x), Filled(v2, x))
    ensures Dilution(m1, v1, m2, v2).Ok?
    ensures Dilution(m1, v1, m2, v2).value.amount == x
  {
    FourFields(m1, v1, m2, v2);
    if m1.None? {
      SolvesM1(v1.value, m2.value, v2.value, x);
    } else if v1.None? {
      SolvesV1(m1.value, m2.value, v2.value, x);
    } else if m2.None? {
      SolvesM2(m1.value, v1.value, v2.value, x);
    } else {
      SolvesV2(m1.value, v1.value, m2.value, x);
    }
  }

  /** A blank initial concentration is solved as the x with x V1 = M2V2. */
  lemma SolvesM1(v1: real, m2: real, v2: real, x: real)
    requires v1 != 0.0 && DilutionLaw(x, v1, m2, v2)
    ensures Dilution(None, Some(v1), Some(m2), Some(v2)) == Ok(Quantity(x, "M"))
  {
    CountOfFour(None, Some(v1), Some(m2), Some(v2));
    SolveLinear(x, v1, m2 * v2);
    var r := Dilution(None, Some(v1), Some(m2), Some(v2));
    assert r.Ok? && r.value.amount == x;
  }

  /** A blank initial volume is solved as the x with M1 x = M2V2. */
  lemma SolvesV1(m1: real, m2: real, v2: real, x: real)
    requires m1 != 0.0 && DilutionLaw(m1, x, m2, v2)
    ensures Dilution(Some(m1), None, Some(m2), Some(v2)) == Ok(Quantity(x, "L"))
  {
    CountOfFour(Some(m1), None, Some(m2), Some(v2));
    SolveLinearLeft(x, m1, m2 * v2);
    var r := Dilution(Some(m1), None, Some(m2), Some(v2));
    assert r.Ok? && r.value.amount == x;
  }

  /** A blank final concentration is solved as the x with M1V1 = x V2. */
  lemma SolvesM2(m1: real, v1: real, v2: real, x: real)
    requires v2 != 0.0 && DilutionLaw(m1, v1, x, v2)
    ensures Dilution(Some(m1), Some(v1), None, Some(v2)) == Ok(Quantity(x, "M"))
  {
    CountOfFour(Some(m1), Some(v1), None, Some(v2));
    SolveLinear(x, v2, m1 * v1);
    var r := Dilution(Some(m1), Some(v1), None, Some(v2));
    assert r.Ok? && r.value.amount == x;
  }

  /** A blank final volume is solved as the x with M1V1 = M2 x. */
  lemma SolvesV2(m1: real, v1: real, m2: real, x: real)
    requires m2 != 0.0 && DilutionLaw(m1, v1, m2, x)
    ensures Dilution(Some(m1), Some(v1), Some(m2), None) == Ok(Quantity(x, "L"))
  {
    CountOfFour(Some(m1), Some(v1), Some(m2), None);
    SolveLinearLeft(x, m2, m1 * v1);
    var r := Dilution(Some(m1), Some(v1), Some(m2), None);
    assert r.Ok? && r.value.amount == x;
  }

  /**
   * `calculateDilution` step by step: push the name of each blank field onto
   * `missing`, refuse unless it holds exactly one name, then solve.
   */
  method CalculateDilution(m1: Option<real>, v1: Option<real>, m2: Option<real>, v2: Option<real>)
    returns (r: Result<Quantity>)
    requires DilutionDivisorNonzero(m1, v1, m2, v2)
    ensures r == Dilution(m1, v1, m2, v2)
  {
    var missing: seq<string> := [];
    if m1.None? { missing := missing + ["M1"]; }
    if v1.None? { missing := missing + ["V1"]; }
    if m2.None? { missing := missing + ["M2"]; }
    if v2.None? { missing := missing + ["V2"]; }
    CountOfFour(m1, v1, m2, v2);
    if |missing| != 1 {
      return Err(ExactlyOneBlankMessage);
    }
    if m1.None? {
      r := Ok(Quantity((m2.value * v2.value) / v1.value, "M"));
    } else if v1.None? {
      r := Ok(Quantity((m2.value * v2.value) / m1.value, "L"));
    } else if m2.None? {
      r := Ok(Quantity((m1.value * v1.value) / v2.value, "M"));
    } else {
      r := Ok(Quantity((m1.value * v1.value) / m2.value, "L"));
    }
  }
}
