/**
 * The limiting-reagent calculator: every field must be filled in, each
 * reactant's coefficient is the integer its label starts with (1 when there
 * is none or it is 0), and the reactant whose partner is not exhausted by it
 * is the limiting one. The equation text is only checked for being non-empty.
 */
module LimitingReagent {
  import opened Wrappers
  import opened JsText
  import opened Presentation

  const FillAllFieldsMessage := "Please fill in all fields."

  /** Which of the two reactants. */
  datatype Reactant = First | Second

  /**
   * What the calculator reports: the limiting reactant and its label, and the
   * explanation's figures: how much of the other reactant it requires, the
   * other reactant's label, and how much of it is available.
   */
  datatype Verdict = Verdict(limiting: Reactant, reagent: string, required: real, other: string, available: real)

  /** JavaScript falsiness of a parsed amount: NaN or zero. */
  predicate Falsy(amount: Option<real>)
    ensures ValidateNumber(amount) ==> !Falsy(amount)
    ensures !Falsy(amount) && !ValidateNumber(amount) ==> amount.Some? && amount.value < 0.0
  {
    amount.None? || amount.value == 0.0
  }

  /** `parseInt(name) || 1`: the label's leading integer, or 1 when it has none or it is 0. */
  function Coefficient(name: string): (c: int)
    ensures c != 0
    ensures ParseInt(name).None? ==> c == 1
    ensures ParseInt(name).Some? ==> c == (if ParseInt(name).value == 0 then 1 else ParseInt(name).value)
  {
    var k := ParseInt(name);
    if k.None? || k.value == 0 then 1 else k.value
  }

  /** A label that starts with a positive integer has that integer as its coefficient: "2H2" gives 2. */
  lemma CoefficientOfLeadingInteger(n: nat, formula: string)
    requires n > 0
    requires formula == [] || DigitValue(formula[0]) >= 10
    ensures Coefficient(Decimal(n) + formula) == n
  {
    ParseIntOfDecimal("", n, formula);
    assert "" + (Decimal(n) + formula) == Decimal(n) + formula;
  }

  /** A label that starts with a letter, such as "H2O", has coefficient 1. */
  lemma CoefficientOfFormula(name: string)
    requires name != [] && (('a' <= name[0] <= 'z') || ('A' <= name[0] <= 'Z'))
    ensures Coefficient(name) == 1
  {
    ParseIntOfLetter(name);
  }

  /** A label that starts with 0, such as "0O2", falls back to coefficient 1. */
  lemma CoefficientOfZero(formula: string)
    requires formula == [] || (DigitValue(formula[0]) >= 10 && formula[0] != 'x' && formula[0] != 'X')
    ensures Coefficient("0" + formula) == 1
  {
    ParseIntOfDecimal("", 0, formula);
    assert "" + (Decimal(0) + formula) == "0" + formula;
  }

  /**
   * `calculateLimitingReagent`: refuses unless the equation and both labels
   * are non-empty and both amounts are non-zero numbers; otherwise reactant 1
   * is limiting exactly when the amount of reactant 2 it requires,
   * amount1·coeff2/coeff1, does not exceed the amount of reactant 2 available.
   */
  function Limiting(equation: string, reactant1: string, amount1: Option<real>, reactant2: string, amount2: Option<real>)
    : (r: Result<Verdict>)
    ensures r.Err? <==> equation == [] || reactant1 == [] || Falsy(amount1) || reactant2 == [] || Falsy(amount2)
    ensures r.Err? ==> r.msg == FillAllFieldsMessage
    ensures r.Ok? ==> r.value == Decide(reactant1, amount1.value, Coefficient(reactant1) as real,
                                        reactant2, amount2.value, Coefficient(reactant2) as real)
  {
    if equation == [] || reactant1 == [] || Falsy(amount1) || reactant2 == [] || Falsy(amount2) then
      Err(FillAllFieldsMessage)
    else
      Ok(Decide(reactant1, amount1.value, Coefficient(reactant1) as real,
                reactant2, amount2.value, Coefficient(reactant2) as real))
  }

  /**
   * The comparison of `calculateLimitingReagent`: reactant 1 is limiting exactly
   * when the amount of reactant 2 it requires, amount1·coeff2/coeff1, does not
   * exceed the amount of reactant 2 available; the verdict then carries that
   * requirement, and otherwise the amount of reactant 1 that reactant 2 requires.
   */
  function Decide(reactant1: string, amount1: real, coeff1: real, reactant2: string, amount2: real, coeff2: real)
    : (v: Verdict)
    requires coeff1 != 0.0 && coeff2 != 0.0
    ensures v.limiting == First <==> amount1 * coeff2 / coeff1 <= amount2
    ensures v.limiting == First ==>
              v.reagent == reactant1 && v.other == reactant2 && v.available == amount2
              && v.required * coeff1 == amount1 * coeff2
    ensures v.limiting == Second ==>
              v.reagent == reactant2 && v.other == reactant1 && v.available == amount1
              && v.required * coeff2 == amount2 * coeff1
  {
    var requiredAmount2 := (amount1 * coeff2) / coeff1;
    var requiredAmount1 := (amount2 * coeff1) / coeff2;
    if requiredAmount2 <= amount2 then
      Verdict(First, reactant1, requiredAmount2, reactant2, amount2)
    else
      Verdict(Second, reactant2, requiredAmount1, reactant1, amount1)
  }

  /** The equation's text does not matter, as long as it is not empty. */
  lemma LimitingIgnoresEquation(e1: string, e2: string, reactant1: string, amount1: Option<real>,
                                reactant2: string, amount2: Option<real>)
    requires e1 != [] && e2 != []
    ensures Limiting(e1, reactant1, amount1, reactant2, amount2) == Limiting(e2, reactant1, amount1, reactant2, amount2)
  {
  }

  /**
   * With positive coefficients and amounts, reactant 1 is limiting exactly when
   * it supports no more rounds of the reaction than reactant 2:
   * amount1 / coeff1 <= amount2 / coeff2.
   */
  lemma LimitingByExtent(equation: string, reactant1: string, amount1: real, reactant2: string, amount2: real)
    requires equation != [] && reactant1 != [] && reactant2 != []
    requires amount1 > 0.0 && amount2 > 0.0
    requires Coefficient(reactant1) > 0 && Coefficient(reactant2) > 0
    ensures Limiting(equation, reactant1, Some(amount1), reactant2, Some(amount2)).Ok?
    ensures Limiting(equation, reactant1, Some(amount1), reactant2, Some(amount2)).value.limiting == First
            <==> amount1 / Coefficient(reactant1) as real <= amount2 / Coefficient(reactant2) as real
  {
    DecideByExtent(reactant1, amount1, Coefficient(reactant1) as real,
                   reactant2, amount2, Coefficient(reactant2) as real);
  }

  /** The comparison of Decide, restated on rounds of the reaction for positive coefficients. */
  lemma DecideByExtent(reactant1: string, amount1: real, coeff1: real, reactant2: string, amount2: real, coeff2: real)
    requires coeff1 > 0.0 && coeff2 > 0.0
    ensures Decide(reactant1, amount1, coeff1, reactant2, amount2, coeff2).limiting == First
            <==> amount1 / coeff1 <= amount2 / coeff2
  {
    var x, y := amount1 / coeff1, amount2 / coeff2;
    ScaleInequality(x, y, coeff2);
    assert amount1 * coeff2 / coeff1 == x * coeff2;
    assert amount2 == y * coeff2;
    assert (amount1 * coeff2 / coeff1 <= amount2) == (x <= y);
  }

  /** Multiplying both sides by a positive factor keeps the order. */
  lemma ScaleInequality(x: real, y: real, c: real)
    requires c > 0.0
    ensures x <= y <==> x * c <= y * c
  {
  }

  /**
   * With positive coefficients, the other reactant is always in excess: when
   * reactant 2 is limiting, the reactant 1 it requires is less than the
   * reactant 1 available.
   */
  lemma OtherReactantInExcess(reactant1: string, amount1: real, coeff1: real, reactant2: string, amount2: real, coeff2: real)
    requires coeff1 > 0.0 && coeff2 > 0.0
    requires Decide(reactant1, amount1, coeff1, reactant2, amount2, coeff2).limiting == Second
    ensures Decide(reactant1, amount1, coeff1, reactant2, amount2, coeff2).required < amount1
  {
    var v := Decide(reactant1, amount1, coeff1, reactant2, amount2, coeff2);
    assert amount1 * coeff2 / coeff1 > amount2;
    ScaleInequality(amount2, amount1 * coeff2 / coeff1, coeff1);
    assert amount1 * coeff2 / coeff1 * coeff1 == amount1 * coeff2;
    assert amount2 * coeff1 < amount1 * coeff2;
    assert v.required * coeff2 == amount2 * coeff1;
    ScaleInequality(amount1, v.required, coeff2);
  }

  /** The sign of a parsed coefficient is kept: "-2H2" gives -2, so a negative coefficient reverses the comparison. */
  lemma NegativeCoefficient()
    ensures Coefficient("-2H2") == -2
  {
    ParseIntOfNegativeDecimal("", 2, "H2");
    assert "" + ("-" + (Decimal(2) + "H2")) == "-2H2";
  }
}
