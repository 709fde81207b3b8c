# ChemXplorer calculators, modelled in Dafny

ChemXplorer's page script (`js/script.js`) drives a set of form calculators
for introductory chemistry: eight mole/mass/particle/volume/molarity
converters, an ideal gas law solver, a dilution solver, an empirical-formula
builder and a limiting-reagent calculator. Each reads some fields, checks them,
and shows either a number with a unit or an error message.

This project models each calculator as a pure function (or, where the script
builds something step by step, a method) from the parsed fields to a
`Result`: `Ok(value)` or `Err(msg)`, with each error message as the script
has it. Numbers are Dafny `real`, an idealisation of IEEE doubles. A blank or
unparsable field, which `parseFloat` turns into NaN, is `None` in an
`Option<real>`.

Modules, one per concern of the script:

- `Wrappers` (`wrappers.dfy`): `Option` and `Result`.
- `JsText` (`jstext.dfy`): the JavaScript text primitives the calculators
  depend on. These are white space as ECMAScript defines it, `trim`, `split` on
  one character, `parseInt` with no radix (sign, `0x` prefix, longest digit
  run, NaN when there is none) and the decimal rendering of an integer.
- `Presentation` (`presentation.dfy`): `validateNumber` and the branch test of
  `formatScientific`.
- `Converters` (`converters.dfy`): the eight single-formula calculators.
- `Solvers` (`solvers.dfy`): the ideal gas and dilution solvers. Each has a
  function that states the result, plus a method that builds the `missing`
  list by pushes as the script does.
- `EmpiricalFormula` (`empirical.dfy`): the count check and the loop that
  assembles the formula string, plus a reader that parses a formula back.
- `LimitingReagent` (`limiting.dfy`): coefficient parsing and the decision.

Three points where the script's behaviour is easy to misread:

- `formatScientific` tests the signed value (`number >= 1000000 || number < 0.001`),
  not its magnitude. So every negative number is shown in exponential
  notation. `Presentation.SignedDiffersFromMagnitude` pins down exactly where
  the two rules differ: the negatives in (-1000000, -0.001].
  `Presentation.SignedAgreesWithMagnitude` shows they agree on every
  non-negative value. That includes every converter result, which is always
  positive.
- `split(',')` always returns at least one part, so the script's
  `elements.length === 0` test never fires. The model keeps the test, and
  `JsText.Split` proves it is dead.
- The limiting-reagent check rejects an amount only when it is NaN or 0
  (JavaScript falsiness). A negative amount gets through, and so does a
  negative coefficient such as the one in `"-2H2"`.

## Model

| member | source | states |
|---|---|---|
| Presentation.ValidateNumber | js/script.js:4-7 | a field that passes the gate holds a number, and a nonzero one, so the converters may divide by it |
| Presentation.ValidateNumberCases | js/script.js:4-7 | the gate rejects a blank (NaN) field, zero and every negative number, and accepts every positive number |
| Presentation.NotationFor | js/script.js:9-14 | fixed-point notation is chosen exactly for values in [0.001, 1000000); everything else, including every negative, is exponential |
| Presentation.NegativeIsExponential | js/script.js:10 | every negative value takes the exponential branch, because the test is on the signed value |
| Presentation.SignedAgreesWithMagnitude | js/script.js:10 | on non-negative values the signed test gives the same notation as a test on the magnitude |
| Presentation.SignedDiffersFromMagnitude | js/script.js:10 | the signed test and the magnitude rule disagree exactly on the negatives in (-1000000, -0.001] |
| Converters.MassToMole | js/script.js:32-43 | Ok exactly when mass and molar mass both pass the gate, otherwise the fixed message; on Ok the unit is "moles", the value is positive and value × molar mass = mass |
| Converters.MolesToParticles | js/script.js:45-55 | Ok exactly when moles passes the gate; on Ok the unit is "particles", the value is positive and value / 6.02214076e23 = moles |
| Converters.MolesToMass | js/script.js:57-68 | Ok exactly when moles and molar mass pass the gate; on Ok the unit is "grams", the value is positive and value / molar mass = moles |
| Converters.ParticlesToMoles | js/script.js:70-80 | Ok exactly when particles passes the gate; on Ok the unit is "moles", the value is positive and value × Avogadro = particles |
| Converters.MolesToVolume | js/script.js:82-92 | Ok exactly when moles passes the gate; on Ok the unit is "liters (at STP)", the value is positive and value / 22.4 = moles, with 22.4 the molar volume constant of line 30 |
| Converters.VolumeToMoles | js/script.js:94-104 | Ok exactly when volume passes the gate; on Ok the unit is "moles (at STP)", the value is positive and value × 22.4 = volume |
| Converters.MolesToMolarity | js/script.js:106-117 | Ok exactly when moles and volume pass the gate; on Ok the unit is "M", the value is positive and value × volume = moles |
| Converters.MolarityToMoles | js/script.js:119-130 | Ok exactly when molarity and volume pass the gate; on Ok the unit is "moles", the value is positive and value / volume = molarity |
| Converters.MolesParticlesRoundTrip | js/script.js:45-80 | moles → particles → moles returns the original moles |
| Converters.ParticlesMolesRoundTrip | js/script.js:45-80 | particles → moles → particles returns the original particles |
| Converters.MolesMassRoundTrip | js/script.js:32-68 | moles → mass → moles at one molar mass returns the original moles |
| Converters.MassMolesRoundTrip | js/script.js:32-68 | mass → moles → mass at one molar mass returns the original mass |
| Converters.MolesVolumeRoundTrip | js/script.js:82-104 | moles → STP volume → moles returns the original moles |
| Converters.VolumeMolesRoundTrip | js/script.js:82-104 | STP volume → moles → STP volume returns the original volume |
| Converters.MolesMolarityRoundTrip | js/script.js:106-130 | moles → molarity → moles in one volume returns the original moles |
| Converters.MolarityMolesRoundTrip | js/script.js:106-130 | molarity → moles → molarity in one volume returns the original molarity |
| Solvers.BlankCount | js/script.js:139-145 | the number of blank fields is at most the number of fields, and is zero exactly when every field holds a number |
| Solvers.BlankCountOne | js/script.js:139-145 | exactly one blank field holds exactly when some field is blank and all the others hold numbers |
| Solvers.CountOfFour | js/script.js:139-143 | the blank count of four fields adds one for each blank field, as the four pushes do |
| Solvers.IdealGas | js/script.js:133-166 | Err with the fixed message exactly when the number of blank fields is not 1; on Ok, putting the value into the blank field satisfies P·V = n·0.0821·T, and the unit is atm, L, moles or K according to that field |
| Solvers.IdealGasUnique | js/script.js:150-165 | any value that completes P·V = n·R·T for the single blank field is the value the solver returns |
| Solvers.SolvesPressure | js/script.js:153-155 | with pressure blank and a nonzero volume, the solver returns in atm the x with x·V = n·R·T |
| Solvers.SolvesVolume | js/script.js:156-158 | with volume blank and a nonzero pressure, the solver returns in L the x with P·x = n·R·T |
| Solvers.SolvesMoles | js/script.js:159-161 | with moles blank and a nonzero temperature, the solver returns in moles the x with P·V = x·R·T |
| Solvers.SolvesTemperature | js/script.js:162-164 | with temperature blank and nonzero moles, the solver returns in K the x with P·V = n·R·x |
| Solvers.IdealGasAcceptsNegative | js/script.js:134-155 | the known fields are not checked for sign: for every negative volume with n·T > 0 the solver returns a negative pressure, and that pressure takes the exponential branch |
| Solvers.CalculateIdealGas | js/script.js:133-166 | building `missing` by pushes, refusing unless it has one entry, and dispatching on the blank field gives exactly Solvers.IdealGas |
| Solvers.Dilution | js/script.js:169-199 | Err with the fixed message exactly when the number of blank fields is not 1; on Ok, putting the value into the blank field satisfies M1·V1 = M2·V2, with unit M for a concentration and L for a volume |
| Solvers.DilutionUnique | js/script.js:186-198 | any value that completes M1·V1 = M2·V2 for the single blank field is the value the solver returns |
| Solvers.SolvesM1 | js/script.js:186-188 | with M1 blank and a nonzero V1, the solver returns in M the x with x·V1 = M2·V2 |
| Solvers.SolvesV1 | js/script.js:189-191 | with V1 blank and a nonzero M1, the solver returns in L the x with M1·x = M2·V2 |
| Solvers.SolvesM2 | js/script.js:192-194 | with M2 blank and a nonzero V2, the solver returns in M the x with M1·V1 = x·V2 |
| Solvers.SolvesV2 | js/script.js:195-197 | with V2 blank and a nonzero M2, the solver returns in L the x with M1·V1 = M2·x |
| Solvers.CalculateDilution | js/script.js:169-199 | building `missing` by pushes, refusing unless it has one entry, and dispatching on the blank field gives exactly Solvers.Dilution |
| JsText.Split | js/script.js:203-204 | `split` on a comma gives at least one part, and no part contains the comma |
| JsText.SplitCons | js/script.js:203 | a comma-free part followed by a comma splits off as the first part |
| JsText.JoinSplit | js/script.js:203 | joining the parts of a split with the separator gives back the original text |
| JsText.SplitJoin | js/script.js:203 | splitting a join of comma-free parts gives back the parts |
| JsText.TrimStart | js/script.js:223 | only leading white space is removed, and the result does not start with white space |
| JsText.TrimEnd | js/script.js:223 | only trailing white space is removed, and the result does not end with white space |
| JsText.TrimStartIsSuffix | js/script.js:223 | what trimming the start leaves is a suffix of the text |
| JsText.TrimEndIsPrefix | js/script.js:223 | what trimming the end leaves is a prefix of the text |
| JsText.Trim | js/script.js:223 | the trimmed element neither starts nor ends with white space and is no longer than the original |
| JsText.TrimCutsWhiteSpace | js/script.js:223 | what trim leaves is a contiguous slice of the text, and everything cut from either end is white space |
| JsText.TrimIdempotent | js/script.js:223 | trimming twice is the same as trimming once |
| JsText.Decimal | js/script.js:223 | an integer subscript is rendered as decimal digits with no leading zero |
| JsText.RunValueOfDecimal | js/script.js:223 | reading back the decimal rendering of an integer gives the integer |
| JsText.ParseInt | js/script.js:254-255 | `parseInt` gives a number only when, after white space, the text starts with a sign or a digit, and a negative number only after a minus sign |
| JsText.ParseUnsigned | js/script.js:254-255 | the unsigned part gives a number only for text that starts with a decimal digit (a hexadecimal prefix starts with 0) |
| JsText.ParseIntOfDecimal | js/script.js:254-255 | `parseInt` of white space, a decimal integer and then non-digit text gives that integer |
| JsText.ParseIntOfNegativeDecimal | js/script.js:254-255 | `parseInt` of white space, a minus sign, a decimal integer and then non-digit text gives the negated integer |
| JsText.ParseIntAfterWhiteSpace | js/script.js:254-255 | `parseInt` skips leading white space: the text after it alone decides the result |
| JsText.ParseIntNegated | js/script.js:254-255 | after white space, a minus sign negates the value the unsigned part reads |
| JsText.ParseIntOfLetter | js/script.js:254-255 | `parseInt` of text that starts with a letter is NaN |
| EmpiricalFormula.Term | js/script.js:223 | a term is the trimmed element alone when the subscript is 1 or less, and strictly longer than it when the subscript is above 1 |
| EmpiricalFormula.TermShape | js/script.js:223 | a term starts with the trimmed element and continues with nothing but decimal digits |
| EmpiricalFormula.Formula | js/script.js:221-224 | the formula of a non-empty element list starts with the first element's term |
| EmpiricalFormula.FormulaEmpty | js/script.js:221-224 | the formula is empty exactly when every element's term is empty, that is every element is blank and no subscript is above 1 |
| EmpiricalFormula.CalculateEmpiricalFormula | js/script.js:202-227 | Err with the fixed message exactly when the element list and the mass list split into different numbers of parts; otherwise the formula is the terms of the elements in input order, each a trimmed element followed by its subscript when that is above 1 |
| EmpiricalFormula.FormulaSnoc | js/script.js:221-224 | appending an element to the list appends its term to the formula, as each loop step does |
| EmpiricalFormula.ReadFormulaOfFormula | js/script.js:221-224 | for elements that are chemical symbols, reading the built formula back gives every element, in order, with its subscript, and 1 for every subscript of 1 or less that was left out |
| LimitingReagent.Falsy | js/script.js:247 | an amount that would pass the converters' gate is never falsy, and a non-falsy amount that fails the gate is a negative number, which the calculator therefore accepts |
| LimitingReagent.Coefficient | js/script.js:254-255 | the coefficient is never 0: it is the label's leading integer, or 1 when there is none or it is 0 |
| LimitingReagent.CoefficientOfLeadingInteger | js/script.js:253-255 | a label made of a positive integer followed by non-digit text, such as "2H2", has that integer as its coefficient |
| LimitingReagent.CoefficientOfFormula | js/script.js:254-255 | a label that starts with a letter, such as "H2O", has coefficient 1 |
| LimitingReagent.CoefficientOfZero | js/script.js:254-255 | a label that starts with the integer 0 falls back to coefficient 1 |
| LimitingReagent.NegativeCoefficient | js/script.js:254 | a leading minus sign is kept: "-2H2" has coefficient -2 |
| LimitingReagent.Limiting | js/script.js:240-270 | Err with "Please fill in all fields." exactly when the equation or a label is empty or an amount is NaN or 0; otherwise the verdict of the comparison on the parsed coefficients |
| LimitingReagent.Decide | js/script.js:258-270 | reactant 1 is limiting exactly when amount1·coeff2/coeff1 ≤ amount2; the verdict names the limiting reactant and the other one, and its required amount times the limiting coefficient equals the limiting amount times the other coefficient |
| LimitingReagent.LimitingIgnoresEquation | js/script.js:241-247 | the equation text affects nothing beyond being non-empty |
| LimitingReagent.LimitingByExtent | js/script.js:258-264 | for positive coefficients and amounts, reactant 1 is limiting exactly when amount1/coeff1 ≤ amount2/coeff2, so it supports no more rounds of the reaction than reactant 2 |
| LimitingReagent.DecideByExtent | js/script.js:258-264 | the comparison amount1·coeff2/coeff1 ≤ amount2 is the comparison amount1/coeff1 ≤ amount2/coeff2 for positive coefficients |
| LimitingReagent.OtherReactantInExcess | js/script.js:259-269 | for positive coefficients, when reactant 2 is limiting, the amount of reactant 1 it requires is less than the amount of reactant 1 available |

## Left out

- Page I/O. The model leaves out reading the fields with `document.getElementById`,
  writing `innerHTML` and `className` in `showResult`, `showError` and the two
  text calculators, `toggleMenu`, and the `DOMContentLoaded` listeners for
  closing the menu and smooth scrolling. These only move values between the
  page and the functions modelled here. The model returns the `Ok` or `Err`
  value that would be displayed.
- The digits of `toExponential(3)` and `toFixed(3)`, and therefore the exact
  text of a result or of the limiting-reagent explanation. Only the choice of
  notation (`Presentation.NotationFor`) and the figures the explanation shows
  (`LimitingReagent.Verdict`) are modelled. Floating-point rounding is left out
  everywhere too, since numbers are exact reals.
- `parseFloat` on the fields. Fields arrive already parsed as `Option<real>`.
  Prefix parsing such as `"12abc"` giving 12 and the value `Infinity` (which
  passes `validateNumber`) are not represented.
- Solvers.IdealGas: requires the divisor of the branch taken to be nonzero
  (volume, pressure, temperature or moles), because real division by zero is
  undefined. The script would show IEEE Infinity or NaN there.
- Solvers.CalculateIdealGas: the same nonzero-divisor requirement as Solvers.IdealGas.
- Solvers.Dilution: requires the divisor of the branch taken (V1, M1, V2 or
  M2) to be nonzero, for the same reason.
- Solvers.CalculateDilution: the same nonzero-divisor requirement as Solvers.Dilution.
- The ratio, GCD and rounding step of the empirical formula
  (`js/script.js:211-219`), together with `parseFloat` of the masses. That step
  applies `%` and `Math.round` to non-integer doubles, and Euclid's algorithm
  over reals has no termination argument. The integer subscripts it produces
  are an input to `EmpiricalFormula.CalculateEmpiricalFormula`. Of the masses,
  only their count is used.
- EmpiricalFormula.CalculateEmpiricalFormula: its `Ok` presumes that the
  left-out ratio step returned. When the smallest mass is NaN or 0 (masses
  `""` or `"0"`, say), every ratio is NaN or Infinity, and the `gcd` of
  `js/script.js:216-217` ends up calling itself on NaN: `NaN % NaN` is NaN and
  never `=== 0`, so it recurses until the stack overflows, nothing is written
  to the result, and the page shows nothing. On those inputs the model still
  returns `Ok` of the formula for whatever subscripts it is given. Subscripts
  are integers, and the exponent form that JavaScript uses to render integers
  of 1e21 and above is not represented.
- JsText.ParseIntOfDecimal: `parseInt` is modelled on exact integers. The loss of
  precision that JavaScript numbers suffer beyond 2^53 is not represented.
- JsText.ParseIntOfNegativeDecimal: the same exact-integer model as JsText.ParseIntOfDecimal.
- The `try`/`catch` around the limiting-reagent computation
  (`js/script.js:252`, `278-280`). Nothing inside it can throw on strings and
  numbers, so its error path is unreachable.
