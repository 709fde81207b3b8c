/**
 * The empirical-formula calculator: split the element list and the mass list
 * on commas, refuse when their lengths differ, and write each trimmed element
 * followed by its subscript, leaving out subscripts of 1 or less. The
 * subscripts themselves come from the ratio and rounding step, which is not
 * part of this model and is taken as an input.
 */
module EmpiricalFormula {
  import opened Wrappers
  import opened JsText

  const EqualCountMessage := "Please enter equal number of elements and masses."

  /** One element's part of the formula: its trimmed symbol, then its subscript when that is above 1. */
  function Term(element: string, subscript: int): (t: string)
    ensures subscript <= 1 ==> t == Trim(element)
    ensures subscript > 1 ==> |t| > |Trim(element)|
  {
    Trim(element) + (if subscript > 1 then Decimal(subscript) else "")
  }

  /** A term is the trimmed element followed by nothing but decimal digits. */
  lemma TermShape(element: string, subscript: int)
    ensures Trim(element) <= Term(element, subscript)
    ensures forall i :: |Trim(element)| <= i < |Term(element, subscript)| ==> '0' <= Term(element, subscript)[i] <= '9'
  {
    var ds := if subscript > 1 then Decimal(subscript) else "";
    assert Term(element, subscript) == Trim(element) + ds;
  }

  /** The whole formula: the terms of the elements, in input order. */
  function Formula(elements: seq<string>, subscripts: seq<int>): (r: string)
    requires |elements| == |subscripts|
    ensures elements != [] ==> Term(elements[0], subscripts[0]) <= r
  {
    if elements == [] then "" else Term(elements[0], subscripts[0]) + Formula(elements[1..], subscripts[1..])
  }

  /** The formula is empty exactly when every element is blank and no subscript is above 1. */
  lemma {:induction false} FormulaEmpty(elements: seq<string>, subscripts: seq<int>)
    requires |elements| == |subscripts|
    ensures Formula(elements, subscripts) == [] <==> forall i :: 0 <= i < |elements| ==> Term(elements[i], subscripts[i]) == []
  {
    if elements != [] {
      FormulaEmpty(elements[1..], subscripts[1..]);
      assert forall i :: 0 <= i < |elements| - 1 ==> elements[1..][i] == elements[i + 1] && subscripts[1..][i] == subscripts[i + 1];
    }
  }

  /** Appending one more element appends its term. */
  lemma {:induction false} FormulaSnoc(elements: seq<string>, subscripts: seq<int>, element: string, subscript: int)
    requires |elements| == |subscripts|
    ensures Formula(elements + [element], subscripts + [subscript])
            == Formula(elements, subscripts) + Term(element, subscript)
  {
    if elements == [] {
      assert Formula([element], [subscript]) == Term(element, subscript) + Formula([], []);
    } else {
      var head := Term(elements[0], subscripts[0]);
      var tail := Formula(elements[1..], subscripts[1..]);
      var last := Term(element, subscript);
      assert (elements + [element])[1..] == elements[1..] + [element];
      assert (subscripts + [subscript])[1..] == subscripts[1..] + [subscript];
      FormulaSnoc(elements[1..], subscripts[1..], element, subscript);
      assert head + (tail + last) == (head + tail) + last;
    }
  }

  /** The formula of the first i + 1 elements extends that of the first i by one term. */
  lemma FormulaOfLongerPrefix(elements: seq<string>, subscripts: seq<int>, i: nat)
    requires |elements| == |subscripts| && i < |elements|
    ensures Formula(elements[..i + 1], subscripts[..i + 1])
            == Formula(elements[..i], subscripts[..i]) + Term(elements[i], subscripts[i])
  {
    FormulaSnoc(elements[..i], subscripts[..i], elements[i], subscripts[i]);
    assert elements[..i + 1] == elements[..i] + [elements[i]];
    assert subscripts[..i + 1] == subscripts[..i] + [subscripts[i]];
  }

  /**
   * `calculateEmpiricalFormula` from the split onwards: the count check, then
   * the `forEach` loop that appends each element's term to `formula`.
   */
  method CalculateEmpiricalFormula(elementsText: string, massesText: string, subscripts: seq<int>)
    returns (r: Result<string>)
    requires |subscripts| == |Split(massesText, ',')|
    ensures r.Err? <==> |Split(elementsText, ',')| != |Split(massesText, ',')|
    ensures r.Err? ==> r.msg == EqualCountMessage
    ensures r.Ok? ==> r.value == Formula(Split(elementsText, ','), subscripts)
  {
    var elements := Split(elementsText, ',');
    var masses := Split(massesText, ',');
    if |elements| != |masses| || |elements| == 0 {
      return Err(EqualCountMessage);
    }
    var formula := "";
    for i := 0 to |elements|
      invariant formula == Formula(elements[..i], subscripts[..i])
    {
      FormulaOfLongerPrefix(elements, subscripts, i);
      formula := formula + Term(elements[i], subscripts[i]);
    }
    assert elements[..|elements|] == elements;
    assert subscripts[..|elements|] == subscripts;
    return Ok(formula);
  }

  predicate IsUpper(c: char) { 'A' <= c <= 'Z' }
  predicate IsLower(c: char) { 'a' <= c <= 'z' }

  /** A chemical symbol: a capital letter followed by lower-case letters. */
  predicate IsSymbol(e: string) {
    |e| >= 1 && IsUpper(e[0]) && forall i :: 1 <= i < |e| ==> IsLower(e[i])
  }

  /** The length of the longest prefix of lower-case letters. */
  function LowerRun(s: string): (k: nat)
    ensures k <= |s|
    ensures forall i :: 0 <= i < k ==> IsLower(s[i])
    ensures k < |s| ==> !IsLower(s[k])
  {
    if s != [] && IsLower(s[0]) then 1 + LowerRun(s[1..]) else 0
  }

  /** A run of lower-case letters followed by anything else is read up to its end. */
  lemma {:induction false} LowerRunOfPrefix(xs: string, rest: string)
    requires forall i :: 0 <= i < |xs| ==> IsLower(xs[i])
    requires rest == [] || !IsLower(rest[0])
    ensures LowerRun(xs + rest) == |xs|
  {
    if xs != [] {
      assert (xs + rest)[1..] == xs[1..] + rest;
      LowerRunOfPrefix(xs[1..], rest);
    } else {
      assert xs + rest == rest;
    }
  }

  /**
   * Reading a formula back: each symbol with its count, a missing subscript
   * counting 1. This is the conventional reading the built string is meant for.
   */
  function ReadFormula(s: string): Option<seq<(string, nat)>>
    decreases |s|
  {
    if s == [] then Some([])
    else if !IsUpper(s[0]) then None
    else
      var (symbol, count, used) := ReadHead(s);
      var rest := ReadFormula(s[used..]);
      if rest.None? then None else Some([(symbol, count)] + rest.value)
  }

  /** The symbol at the front of `s`, its count, and how many characters the two take. */
  function ReadHead(s: string): (h: (string, nat, nat))
    requires s != [] && IsUpper(s[0])
    ensures 1 <= h.2 <= |s|
  {
    var k := 1 + LowerRun(s[1..]);
    var (count, d) := ReadCount(s[k..]);
    (s[..k], count, k + d)
  }

  /** The subscript at the front of `t`, 1 when there is none, and the number of its digits. */
  function ReadCount(t: string): (c: (nat, nat))
    ensures c.1 <= |t|
  {
    var d := LeadingRun(t, 10);
    (if d == 0 then 1 else RunValue(t[..d], 10), d)
  }

  /** What a formula should read as: every trimmed element with its subscript, 1 standing for any subscript of 1 or less. */
  function Expected(elements: seq<string>, subscripts: seq<int>): seq<(string, nat)>
    requires |elements| == |subscripts|
  {
    if elements == [] then []
    else [(Trim(elements[0]), if subscripts[0] > 1 then subscripts[0] else 1)]
         + Expected(elements[1..], subscripts[1..])
  }

  /** A formula of symbols is empty or starts with a capital letter. */
  lemma FormulaStart(elements: seq<string>, subscripts: seq<int>)
    requires |elements| == |subscripts|
    requires forall i :: 0 <= i < |elements| ==> IsSymbol(Trim(elements[i]))
    ensures Formula(elements, subscripts) == [] <==> elements == []
    ensures elements != [] ==> IsUpper(Formula(elements, subscripts)[0])
  {
    if elements != [] {
      var t := Term(elements[0], subscripts[0]);
      assert t[0] == Trim(elements[0])[0];
      assert Formula(elements, subscripts)[0] == t[0];
    }
  }

  /** Reading a symbol and a run of decimal digits off the front of text that continues with a capital letter. */
  lemma ReadPiece(sym: string, ds: string, rest: string)
    requires IsSymbol(sym)
    requires forall i :: 0 <= i < |ds| ==> DigitValue(ds[i]) < 10
    requires rest == [] || IsUpper(rest[0])
    ensures ReadFormula(sym + (ds + rest))
            == if ReadFormula(rest).None? then None
               else Some([(sym, if ds == [] then 1 else RunValue(ds, 10))] + ReadFormula(rest).value)
  {
    var s := sym + (ds + rest);
    assert s[0] == sym[0];
    ReadHeadOfPiece(sym, ds, rest);
    var h := ReadHead(s);
    assert s[h.2..] == rest;
    ReadFormulaStep(s);
  }

  /** A formula that starts with a capital letter reads as its head followed by the rest. */
  lemma ReadFormulaStep(s: string)
    requires s != [] && IsUpper(s[0])
    ensures ReadFormula(s)
            == if ReadFormula(s[ReadHead(s).2..]).None? then None
               else Some([(ReadHead(s).0, ReadHead(s).1)] + ReadFormula(s[ReadHead(s).2..]).value)
  {
  }

  /** The head of a symbol and a run of digits is that symbol, the digits' value, and their joint length. */
  lemma ReadHeadOfPiece(sym: string, ds: string, rest: string)
    requires IsSymbol(sym)
    requires forall i :: 0 <= i < |ds| ==> DigitValue(ds[i]) < 10
    requires rest == [] || IsUpper(rest[0])
    ensures ReadHead(sym + (ds + rest)).0 == sym
    ensures ReadHead(sym + (ds + rest)).1 == if ds == [] then 1 else RunValue(ds, 10)
    ensures ReadHead(sym + (ds + rest)).2 == |sym| + |ds|
  {
    var tail := ds + rest;
    var s := sym + tail;
    assert tail == [] || '0' <= tail[0] <= '9' || IsUpper(tail[0]) by {
      if ds != [] { assert tail[0] == ds[0]; } else { assert tail == rest; }
    }
    SymbolLengthOf(sym, tail);
    assert s[..|sym|] == sym && s[|sym|..] == tail;
    ReadCountOf(ds, rest);
  }

  /** A symbol followed by no lower-case letter ends where the symbol does. */
  lemma SymbolLengthOf(sym: string, tail: string)
    requires IsSymbol(sym)
    requires tail == [] || '0' <= tail[0] <= '9' || IsUpper(tail[0])
    ensures 1 + LowerRun((sym + tail)[1..]) == |sym|
  {
    assert (sym + tail)[1..] == sym[1..] + tail;
    LowerRunOfPrefix(sym[1..], tail);
  }

  /** A run of digits followed by a capital letter or nothing is read as its value, 1 when it is empty. */
  lemma ReadCountOf(ds: string, rest: string)
    requires forall i :: 0 <= i < |ds| ==> DigitValue(ds[i]) < 10
    requires rest == [] || IsUpper(rest[0])
    ensures ReadCount(ds + rest) == (if ds == [] then 1 else RunValue(ds, 10), |ds|)
  {
    LeadingRunOfPrefix(ds, rest, 10);
    assert (ds + rest)[..|ds|] == ds;
  }

  /** Reading one term off the front of a formula whose remainder starts with a capital letter. */
  lemma ReadTerm(element: string, subscript: int, rest: string)
    requires IsSymbol(Trim(element))
    requires rest == [] || IsUpper(rest[0])
    ensures ReadFormula(Term(element, subscript) + rest)
            == if ReadFormula(rest).None? then None
               else Some([(Trim(element), if subscript > 1 then subscript else 1)] + ReadFormula(rest).value)
  {
    var sym := Trim(element);
    var ds := if subscript > 1 then Decimal(subscript) else "";
    var count: nat := if subscript > 1 then subscript else 1;
    assert Term(element, subscript) == sym + ds;
    Associate(sym, ds, rest);
    ReadPiece(sym, ds, rest);
    if subscript > 1 {
      RunValueOfDecimal(subscript);
      assert ds != [];
    }
    assert (if ds == [] then 1 else RunValue(ds, 10)) == count;
  }

  /** Concatenation regroups freely. */
  lemma Associate(a: string, b: string, c: string)
    ensures (a + b) + c == a + (b + c)
  {
  }

  /**
   * The built formula loses nothing but subscripts of 1 or less: reading it
   * back gives every trimmed element, in order, with its subscript.
   */
  lemma {:induction false} ReadFormulaOfFormula(elements: seq<string>, subscripts: seq<int>)
    requires |elements| == |subscripts|
    requires forall i :: 0 <= i < |elements| ==> IsSymbol(Trim(elements[i]))
    ensures ReadFormula(Formula(elements, subscripts)) == Some(Expected(elements, subscripts))
  {
    if elements != [] {
      var rest := Formula(elements[1..], subscripts[1..]);
      FormulaStart(elements[1..], subscripts[1..]);
      ReadFormulaOfFormula(elements[1..], subscripts[1..]);
      ReadTerm(elements[0], subscripts[0], rest);
    }
  }
}
