/** Printing checked contracts as header comments (src/backend/header.rs). */
module ContractHeader {
  import opened Basics
  import opened ContractText

  datatype Term = Parameter(name: string) | SliceLength(name: string)

  datatype TermCoefficient = TermCoefficient(term: Term, coefficient: string)

  datatype Affine = Affine(terms: seq<TermCoefficient>, constant: string)

  datatype Pointer = PointerParameter(name: string) | SliceData(name: string)

  datatype Predicate =
    | Comparison(operator: string, left: Affine, right: Affine)
    | Conjunction(items: seq<Predicate>)
    | MultipleOf(value: Affine, modulus: string)
    | NoAlias(first: string, second: string)
    | Aligned(pointer: Pointer, alignment: nat)

  // ---------- meaning ----------

  /** What a contract speaks about: the values of its terms, and which memory facts hold. */
  datatype Model = Model(value: Term -> int, disjoint: (string, string) -> bool, aligned: (Pointer, nat) -> bool)

  predicate IsNegative(numeral: string) { numeral != "" && numeral[0] == '-' }

  function Magnitude(numeral: string): string {
    if IsNegative(numeral) then numeral[1..] else numeral
  }

  predicate IsNumeral(s: string) { IsDigits(Magnitude(s)) }

  function NumeralValue(numeral: string): int {
    if IsNegative(numeral) then 0 - DigitsValue(Magnitude(numeral)) else DigitsValue(numeral)
  }

  function SumOfTerms(terms: seq<TermCoefficient>, n: nat, m: Model): int
    requires n <= |terms|
  {
    if n == 0 then 0
    else SumOfTerms(terms, n - 1, m) + NumeralValue(terms[n - 1].coefficient) * m.value(terms[n - 1].term)
  }

  function AffineValue(e: Affine, m: Model): int {
    SumOfTerms(e.terms, |e.terms|, m) + NumeralValue(e.constant)
  }

  predicate ComparisonHolds(operator: string, a: int, b: int) {
    || (operator == "==" && a == b) || (operator == "!=" && a != b)
    || (operator == "<" && a < b) || (operator == "<=" && a <= b)
    || (operator == ">" && b < a) || (operator == ">=" && b <= a)
  }

  ghost predicate IsMultiple(value: int, modulus: nat) {
    exists k :: value == k * modulus
  }

  ghost predicate Truth(p: Predicate, m: Model) {
    match p
    case Comparison(operator, left, right) => ComparisonHolds(operator, AffineValue(left, m), AffineValue(right, m))
    case Conjunction(items) => forall q :: q in items ==> Truth(q, m)
    case MultipleOf(value, modulus) => IsMultiple(AffineValue(value, m), DigitsValue(modulus))
    case NoAlias(first, second) => m.disjoint(first, second)
    case Aligned(pointer, alignment) => m.aligned(pointer, alignment)
  }

  /** A parameter goes by its own name, the length of a slice by the slice's name and `_len`. */
  ghost predicate AgreesOnTerm(m: Model, env: Env, term: Term) {
    match term
    case Parameter(name) => env.value(name) == m.value(Parameter(name))
    case SliceLength(name) => env.value(name + "_len") == m.value(SliceLength(name))
  }

  ghost predicate AgreesOnAffine(m: Model, env: Env, e: Affine) {
    forall i :: 0 <= i < |e.terms| ==> AgreesOnTerm(m, env, e.terms[i].term)
  }

  /** The reader's names stand for what the predicate speaks about. */
  ghost predicate Agrees(m: Model, env: Env, p: Predicate) {
    match p
    case Comparison(_, left, right) => AgreesOnAffine(m, env, left) && AgreesOnAffine(m, env, right)
    case Conjunction(items) => forall q :: q in items ==> Agrees(m, env, q)
    case MultipleOf(value, _) => AgreesOnAffine(m, env, value)
    case NoAlias(first, second) => env.disjoint(first, second) == m.disjoint(first, second)
    case Aligned(PointerParameter(name), alignment) =>
      env.aligned(name, alignment) == m.aligned(PointerParameter(name), alignment)
    case Aligned(SliceData(name), alignment) =>
      env.aligned(name + "_data", alignment) == m.aligned(SliceData(name), alignment)
  }

  predicate WellFormedTerm(t: TermCoefficient) { IsName(t.term.name) && IsNumeral(t.coefficient) }

  predicate WellFormedAffine(e: Affine) {
    IsNumeral(e.constant) && forall i :: 0 <= i < |e.terms| ==> WellFormedTerm(e.terms[i])
  }

  /** What the type checker hands over. */
  predicate WellFormed(p: Predicate) {
    match p
    case Comparison(operator, left, right) =>
      IsOperator(operator) && WellFormedAffine(left) && WellFormedAffine(right)
    case Conjunction(items) => forall q :: q in items ==> WellFormed(q)
    case MultipleOf(value, modulus) => WellFormedAffine(value) && IsDigits(modulus)
    case NoAlias(first, second) => IsName(first) && IsName(second)
    case Aligned(pointer, _) => IsName(pointer.name)
  }

  predicate IsZero(numeral: string) { Magnitude(numeral) == "0" }

  /** No component is printed. */
  predicate AllZero(e: Affine) {
    IsZero(e.constant) && forall i :: 0 <= i < |e.terms| ==> IsZero(e.terms[i].coefficient)
  }

  // ---------- conjunctions ----------

  function Flatten(p: Predicate): seq<Predicate> {
    match p
    case Conjunction(items) => FlattenAll(items)
    case _ => [p]
  }

  function FlattenAll(items: seq<Predicate>): seq<Predicate> {
    if items == [] then [] else Flatten(items[0]) + FlattenAll(items[1..])
  }

  /** The leaves met by a walk that always takes the first open predicate and opens a conjunction in place. */
  ghost predicate LeavesInOrder(open: seq<Predicate>, leaves: seq<Predicate>)
    decreases Weight(open)
  {
    if open == [] then leaves == []
    else if open[0].Conjunction? then
      WeightOpens(open);
      LeavesInOrder(open[0].items + open[1..], leaves)
    else leaves != [] && leaves[0] == open[0] && LeavesInOrder(open[1..], leaves[1..])
  }

  function Size(p: Predicate): (n: nat)
    ensures n > 0
  {
    match p
    case Conjunction(items) => 1 + Weight(items)
    case _ => 1
  }

  function Weight(open: seq<Predicate>): nat {
    if open == [] then 0 else Size(open[0]) + Weight(open[1..])
  }

  lemma {:induction false} WeightAdds(a: seq<Predicate>, b: seq<Predicate>)
    ensures Weight(a + b) == Weight(a) + Weight(b)
  {
    if a == [] {
      assert a + b == b;
    } else {
      assert (a + b)[1..] == a[1..] + b;
      WeightAdds(a[1..], b);
    }
  }

  lemma WeightOpens(open: seq<Predicate>)
    requires open != [] && open[0].Conjunction?
    ensures Weight(open[0].items + open[1..]) < Weight(open)
  {
    WeightAdds(open[0].items, open[1..]);
  }

  lemma {:induction false} FlattenAllAdds(a: seq<Predicate>, b: seq<Predicate>)
    ensures FlattenAll(a + b) == FlattenAll(a) + FlattenAll(b)
  {
    if a == [] {
      assert a + b == b;
    } else {
      assert (a + b)[1..] == a[1..] + b;
      FlattenAllAdds(a[1..], b);
    }
  }

  /** Flattening lists the leaves in the order of the walk, and nothing else does. */
  lemma {:induction false} FlattenKeepsOrder(open: seq<Predicate>, leaves: seq<Predicate>)
    ensures LeavesInOrder(open, leaves) <==> leaves == FlattenAll(open)
    decreases Weight(open)
  {
    if open != [] {
      if open[0].Conjunction? {
        WeightOpens(open);
        FlattenKeepsOrder(open[0].items + open[1..], leaves);
        FlattenAllAdds(open[0].items, open[1..]);
      } else if leaves != [] {
        FlattenKeepsOrder(open[1..], leaves[1..]);
      }
    }
  }

  ghost predicate AllTrue(predicates: seq<Predicate>, m: Model) {
    forall q :: q in predicates ==> Truth(q, m)
  }

  ghost predicate AllAgree(predicates: seq<Predicate>, m: Model, env: Env) {
    forall q :: q in predicates ==> Agrees(m, env, q)
  }

  ghost predicate AllWellFormed(predicates: seq<Predicate>) {
    forall q :: q in predicates ==> WellFormed(q)
  }

  ghost predicate NoConjunction(predicates: seq<Predicate>) {
    forall q :: q in predicates ==> !q.Conjunction?
  }

  /** Flattening leaves no conjunction, and keeps well-formedness and truth. */
  lemma {:induction false} FlattenKeepsTruth(p: Predicate, m: Model)
    ensures NoConjunction(Flatten(p))
    ensures Truth(p, m) <==> AllTrue(Flatten(p), m)
    ensures WellFormed(p) <==> AllWellFormed(Flatten(p))
    decreases p
  {
    if p.Conjunction? {
      FlattenAllKeepsTruth(p.items, m);
    }
  }

  lemma {:induction false} FlattenAllKeepsTruth(items: seq<Predicate>, m: Model)
    ensures NoConjunction(FlattenAll(items))
    ensures AllTrue(items, m) <==> AllTrue(FlattenAll(items), m)
    ensures AllWellFormed(items) <==> AllWellFormed(FlattenAll(items))
    decreases items
  {
    if items != [] {
      FlattenKeepsTruth(items[0], m);
      FlattenAllKeepsTruth(items[1..], m);
      hide AllTrue, AllWellFormed, NoConjunction, Truth, WellFormed, Flatten;
      assert items == [items[0]] + items[1..];
      OneInList(items[0], m);
      ListsJoin([items[0]], items[1..], m);
      ListsJoin(Flatten(items[0]), FlattenAll(items[1..]), m);
    } else {
      NothingInList(m);
    }
  }

  lemma NothingInList(m: Model)
    ensures AllTrue([], m) && AllWellFormed([]) && NoConjunction([])
  {
  }

  lemma OneInList(p: Predicate, m: Model)
    ensures AllTrue([p], m) <==> Truth(p, m)
    ensures AllWellFormed([p]) <==> WellFormed(p)
  {
    hide Truth, WellFormed;
  }

  lemma ListsJoin(a: seq<Predicate>, b: seq<Predicate>, m: Model)
    ensures AllTrue(a + b, m) <==> AllTrue(a, m) && AllTrue(b, m)
    ensures AllWellFormed(a + b) <==> AllWellFormed(a) && AllWellFormed(b)
    ensures NoConjunction(a + b) <==> NoConjunction(a) && NoConjunction(b)
  {
    hide Truth, WellFormed;
    assert forall q :: q in a + b <==> q in a || q in b;
  }

  /** The leaves speak about what the predicates speak about. */
  lemma {:induction false} FlattenKeepsAgreement(p: Predicate, m: Model, env: Env)
    ensures Agrees(m, env, p) <==> AllAgree(Flatten(p), m, env)
    decreases p
  {
    if p.Conjunction? {
      FlattenAllKeepsAgreement(p.items, m, env);
    }
  }

  lemma {:induction false} FlattenAllKeepsAgreement(items: seq<Predicate>, m: Model, env: Env)
    ensures AllAgree(items, m, env) <==> AllAgree(FlattenAll(items), m, env)
    decreases items
  {
    if items != [] {
      FlattenKeepsAgreement(items[0], m, env);
      FlattenAllKeepsAgreement(items[1..], m, env);
      hide Agrees, Flatten;
      assert items == [items[0]] + items[1..];
      assert forall q :: q in items <==> q == items[0] || q in items[1..];
      assert forall q :: q in FlattenAll(items) <==> q in Flatten(items[0]) || q in FlattenAll(items[1..]);
    }
  }

  // ---------- printing ----------

  function PrintedName(term: Term): string {
    match term
    case Parameter(name) => name
    case SliceLength(name) => name + "_len"
  }

  function PrintedPointer(pointer: Pointer): string {
    match pointer
    case PointerParameter(name) => name
    case SliceData(name) => name + "_data"
  }

  function PrintedRegion(name: string): string { name + "_data[0.." + name + "_len]" }

  /** What a component contributes: its coefficient times the value of its name, or the coefficient alone. */
  function Amount(coefficient: string, name: string, env: Env): int {
    if name == "" then NumeralValue(coefficient) else NumeralValue(coefficient) * env.value(name)
  }

  /** One unsigned component: a number, a name, or a number times a name. */
  function Component(magnitude: string, name: string): string {
    if name == "" then magnitude else if magnitude == "1" then name else magnitude + " * " + name
  }

  function ComponentValue(magnitude: string, name: string, env: Env): int {
    if name == "" then DigitsValue(magnitude) else DigitsValue(magnitude) * env.value(name)
  }

  lemma ComponentReads(magnitude: string, name: string, env: Env)
    requires IsDigits(magnitude) && (name == "" || IsName(name))
    ensures var c := Component(magnitude, name);
            c != "" && c[0] != '-' && IsPlain(c) && IsTerm(Split(c), env, ComponentValue(magnitude, name, env))
  {
    var c := Component(magnitude, name);
    SplitWord(magnitude);
    SplitWord(name);
    if name != "" && magnitude != "1" {
      assert c == magnitude + " " + ("*" + " " + name);
      SplitWord("*");
      SplitJoins("*", name);
      SplitJoins(magnitude, "*" + " " + name);
      assert Split(c) == [magnitude, "*", name];
    } else if name != "" {
      assert magnitude[..0] == "" && DigitsValue(magnitude) == 1;
      assert name[0] in name && !IsDigit(name[0]);
    }
    assert magnitude[0] in magnitude;
  }

  /** `text` denotes `value`; the empty text stands for the sum of no components. */
  ghost predicate Denotes(text: string, env: Env, value: int) {
    if text == "" then value == 0 else ReadAffine(text, env) == Some(value)
  }

  function Appended(output: string, negative: bool, component: string): string {
    if output == "" then (if negative then "-" + component else component)
    else output + (if negative then " - " else " + ") + component
  }

  lemma AppendedReads(output: string, coefficient: string, name: string, env: Env, value: int)
    requires Denotes(output, env, value) && IsNumeral(coefficient) && (name == "" || IsName(name))
    ensures Denotes(Appended(output, IsNegative(coefficient), Component(Magnitude(coefficient), name)), env,
                    value + Amount(coefficient, name, env))
  {
    hide Denotes, Appended, Component, ComponentValue, Amount, IsTerm, Split, IsPlain;
    var negative, magnitude := IsNegative(coefficient), Magnitude(coefficient);
    var component, v := Component(magnitude, name), ComponentValue(magnitude, name, env);
    AmountIs(coefficient, name, env);
    ComponentReads(magnitude, name, env);
    ComponentAppends(output, negative, component, value, v, env);
  }

  lemma AmountIs(coefficient: string, name: string, env: Env)
    ensures var v := ComponentValue(Magnitude(coefficient), name, env);
            Amount(coefficient, name, env) == if IsNegative(coefficient) then -v else v
  {
    hide DigitsValue;
  }

  lemma ComponentAppends(output: string, negative: bool, component: string, value: int, v: int, env: Env)
    requires Denotes(output, env, value)
    requires component != "" && component[0] != '-' && IsTerm(Split(component), env, v)
    ensures Denotes(Appended(output, negative, component), env, value + if negative then -v else v)
  {
    hide IsTerm, ReadAffine, Split;
    if output == "" {
      ReadAffineStarts(component, v, env);
    } else {
      var sign := if negative then "-" else "+";
      ReadAffineAdds(output, sign, component, v, env);
      assert Appended(output, negative, component) == output + " " + sign + " " + component;
    }
  }

  lemma AppendedIsPlain(output: string, coefficient: string, name: string)
    requires IsPlain(output) && IsNumeral(coefficient) && (name == "" || IsName(name))
    ensures var r := Appended(output, IsNegative(coefficient), Component(Magnitude(coefficient), name));
            r != "" && IsPlain(r)
  {
    ComponentReads(Magnitude(coefficient), name, Env(_ => 0, (_, _) => true, (_, _) => true));
  }

  lemma ZeroAmount(coefficient: string, name: string, env: Env)
    requires IsZero(coefficient)
    ensures Amount(coefficient, name, env) == 0
  {
    assert "0"[..0] == "" && DigitsValue("0") == 0;
  }

  /** What appending a component does: nothing for a zero one, and otherwise its amount is added. */
  ghost predicate Pushed(before: string, after: string, coefficient: string, name: string) {
    && IsPlain(after)
    && (if IsZero(coefficient) then after == before else after != "")
    && forall env, value :: Denotes(before, env, value) ==> Denotes(after, env, value + Amount(coefficient, name, env))
  }

  /** Appends one component unless its magnitude is zero. */
  method PushSignedComponent(output: string, coefficient: string, name: string) returns (r: string)
    requires IsPlain(output) && IsNumeral(coefficient) && (name == "" || IsName(name))
    ensures Pushed(output, r, coefficient, name)
  {
    hide Pushed, IsPlain, IsName, IsDigits;
    var negative, magnitude := IsNegative(coefficient), Magnitude(coefficient);
    if magnitude == "0" {
      ZeroPushed(output, coefficient, name);
      return output;
    }
    r := output;
    if r == "" {
      if negative {
        r := r + "-";
      }
    } else if negative {
      r := r + " - ";
    } else {
      r := r + " + ";
    }
    if name == "" {
      r := r + magnitude;
    } else if magnitude == "1" {
      r := r + name;
    } else {
      r := r + magnitude;
      r := r + " * ";
      r := r + name;
    }
    assert r == Appended(output, negative, Component(magnitude, name));
    ComponentPushed(output, coefficient, name);
  }

  lemma ZeroPushed(output: string, coefficient: string, name: string)
    requires IsPlain(output) && IsZero(coefficient)
    ensures Pushed(output, output, coefficient, name)
  {
    forall env: Env ensures Amount(coefficient, name, env) == 0 {
      ZeroAmount(coefficient, name, env);
    }
  }

  lemma ComponentPushed(output: string, coefficient: string, name: string)
    requires IsPlain(output) && IsNumeral(coefficient) && (name == "" || IsName(name)) && !IsZero(coefficient)
    ensures Pushed(output, Appended(output, IsNegative(coefficient), Component(Magnitude(coefficient), name)),
              coefficient, name)
  {
    hide IsPlain, Denotes, IsNumeral, Amount, Component, Appended, IsName;
    var after := Appended(output, IsNegative(coefficient), Component(Magnitude(coefficient), name));
    forall env, value | Denotes(output, env, value)
      ensures Denotes(after, env, value + Amount(coefficient, name, env))
    {
      AppendedReads(output, coefficient, name, env, value);
    }
    AppendedIsPlain(output, coefficient, name);
  }

  predicate ZeroTerms(terms: seq<TermCoefficient>, n: nat)
    requires n <= |terms|
  {
    forall i :: 0 <= i < n ==> IsZero(terms[i].coefficient)
  }

  /** The first `n` terms have been printed. */
  ghost predicate TermsPrinted(output: string, terms: seq<TermCoefficient>, n: nat)
    requires n <= |terms|
  {
    && IsPlain(output) && (output == "" <==> ZeroTerms(terms, n))
    && forall m, env :: TermsDenoted(output, terms, n, m, env)
  }

  /** For any values of the first n terms, under which the names stand for them. */
  ghost predicate TermsDenoted(output: string, terms: seq<TermCoefficient>, n: nat, m: Model, env: Env)
    requires n <= |terms|
  {
    (forall i :: 0 <= i < n ==> AgreesOnTerm(m, env, terms[i].term)) ==> Denotes(output, env, SumOfTerms(terms, n, m))
  }

  /**
   The text is empty exactly when every component is zero, and is otherwise read with the value of the expression,
   whatever its terms are worth, by any reader whose names stand for them.
   */
  ghost predicate AffinePrinted(output: string, e: Affine) {
    && IsPlain(output) && (output == "" <==> AllZero(e))
    && forall m, env :: AgreesOnAffine(m, env, e) ==> Denotes(output, env, AffineValue(e, m))
  }

  lemma AmountOfTerm(m: Model, env: Env, t: TermCoefficient)
    requires AgreesOnTerm(m, env, t.term) && WellFormedTerm(t)
    ensures Amount(t.coefficient, PrintedName(t.term), env) == NumeralValue(t.coefficient) * m.value(t.term)
  {
  }

  lemma OneMoreTerm(before: string, after: string, terms: seq<TermCoefficient>, n: nat)
    requires n < |terms| && TermsPrinted(before, terms, n) && WellFormedTerm(terms[n])
    requires Pushed(before, after, terms[n].coefficient, PrintedName(terms[n].term))
    ensures TermsPrinted(after, terms, n + 1)
  {
    hide Denotes, IsPlain, IsZero, Amount, AgreesOnTerm, PrintedName, WellFormedTerm;
    var next := n + 1;
    forall m: Model, env: Env ensures TermsDenoted(after, terms, next, m, env) {
      assert TermsDenoted(before, terms, n, m, env);
      if AgreesOnTerm(m, env, terms[n].term) {
        AmountOfTerm(m, env, terms[n]);
      }
    }
  }

  lemma ConstantAdded(before: string, after: string, e: Affine)
    requires TermsPrinted(before, e.terms, |e.terms|)
    requires Pushed(before, after, e.constant, "") || (e.constant == "0" && before != "" && after == before)
    ensures AffinePrinted(after, e)
  {
    hide Denotes, IsPlain, AgreesOnTerm;
    forall m: Model, env: Env | AgreesOnAffine(m, env, e) ensures Denotes(after, env, AffineValue(e, m)) {
      assert TermsDenoted(before, e.terms, |e.terms|, m, env);
      if e.constant == "0" {
        ZeroAmount("0", "", env);
      }
    }
  }

  /** Prints the terms in order, and the constant unless it is zero behind other text. */
  method FormatAffine(e: Affine) returns (output: string)
    requires WellFormedAffine(e)
    ensures AffinePrinted(output, e)
  {
    hide TermsPrinted, AffinePrinted, Pushed, WellFormedTerm, IsPlain, IsNumeral, IsName;
    output := "";
    NothingPrinted(e.terms);
    var i := 0;
    while i < |e.terms|
      invariant 0 <= i <= |e.terms| && IsPlain(output) && TermsPrinted(output, e.terms, i)
    {
      var term := e.terms[i];
      TermIsWellFormed(term);
      var before := output;
      output := PushSignedComponent(output, term.coefficient, PrintedName(term.term));
      OneMoreTerm(before, output, e.terms, i);
      PlainText(output, e.terms, i + 1);
      i := i + 1;
    }
    ghost var sum := output;
    if e.constant != "0" || output == "" {
      output := PushSignedComponent(output, e.constant, "");
    }
    ConstantAdded(sum, output, e);
  }

  lemma NothingPrinted(terms: seq<TermCoefficient>)
    ensures IsPlain("") && TermsPrinted("", terms, 0)
  {
  }

  lemma TermIsWellFormed(t: TermCoefficient)
    requires WellFormedTerm(t)
    ensures IsNumeral(t.coefficient) && IsName(PrintedName(t.term))
  {
    assert PrintedName(t.term)[0] == t.term.name[0];
  }

  lemma PlainText(output: string, terms: seq<TermCoefficient>, n: nat)
    requires n <= |terms| && TermsPrinted(output, terms, n)
    ensures IsPlain(output)
  {
  }

  /** The printed text can be read back: no expression in it is all zero. */
  predicate Readable(p: Predicate) {
    match p
    case Comparison(_, left, right) => !AllZero(left) && !AllZero(right)
    case MultipleOf(value, _) => !AllZero(value)
    case _ => true
  }

  /**
   A readable predicate's text is read with its truth value, by any reader whose names stand for what it speaks about;
   another's cannot be read at all.
   */
  ghost predicate PredicatePrinted(text: string, p: Predicate) {
    && (Readable(p) ==> forall m, env :: Agrees(m, env, p) ==> ReadPredicate(text, env) == Some(Truth(p, m)))
    && (!Readable(p) ==> forall env :: ReadPredicate(text, env) == None)
  }

  /** Formats a predicate that is no conjunction. */
  method FormatPredicate(p: Predicate) returns (text: string)
    requires WellFormed(p) && !p.Conjunction?
    ensures PredicatePrinted(text, p)
  {
    hide AffinePrinted, PredicatePrinted;
    match p {
      case Comparison(operator, left, right) =>
        var a := FormatAffine(left);
        var b := FormatAffine(right);
        text := a + " " + operator + " " + b;
        ComparisonPrinted(a, b, p);
      case MultipleOf(value, modulus) =>
        var a := FormatAffine(value);
        text := "multiple_of(" + a + ", " + modulus + ")";
        MultiplePrinted(a, p);
      case NoAlias(first, second) =>
        text := "noalias(" + PrintedRegion(first) + ", " + PrintedRegion(second) + ")";
        NoAliasPrinted(p);
      case Aligned(pointer, alignment) =>
        text := "aligned(" + PrintedPointer(pointer) + ", " + Decimal(alignment) + ")";
        AlignedPrinted(p);
    }
  }

  lemma NothingReads(env: Env)
    ensures ReadAffine("", env) == None
  {
  }

  lemma ComparesSome(operator: string, a: int, b: int)
    requires IsOperator(operator)
    ensures Compare(operator, a, b) == Some(ComparisonHolds(operator, a, b))
  {
  }

  lemma DividesMeans(modulus: nat, value: int)
    ensures Divides(modulus, value) <==> IsMultiple(value, modulus)
  {
    if modulus > 0 {
      if value % modulus == 0 {
        assert value == (value / modulus) * modulus;
      }
      if k :| value == k * modulus {
        MultipleHasNoRemainder(k, modulus);
      }
    } else if value == 0 {
      assert value == 0 * modulus;
    }
  }

  lemma MultipleHasNoRemainder(k: int, modulus: nat)
    requires modulus > 0
    ensures k * modulus % modulus == 0
  {
    var x := k * modulus;
    SmallMultipleIsZero(k - x / modulus, modulus, x % modulus);
  }

  lemma SmallMultipleIsZero(d: int, modulus: nat, rest: nat)
    requires d * modulus == rest < modulus
    ensures rest == 0
  {
  }

  lemma EmptyWhenUnreadable(a: string, e: Affine, env: Env)
    requires AffinePrinted(a, e) && AllZero(e)
    ensures ReadAffine(a, env) == None
  {
    NothingReads(env);
  }

  lemma AffineReads(a: string, e: Affine, m: Model, env: Env)
    requires AffinePrinted(a, e) && !AllZero(e) && AgreesOnAffine(m, env, e)
    ensures ReadAffine(a, env) == Some(AffineValue(e, m))
  {
    assert Denotes(a, env, AffineValue(e, m));
  }

  lemma ComparisonPrinted(a: string, b: string, p: Predicate)
    requires p.Comparison? && IsOperator(p.operator) && AffinePrinted(a, p.left) && AffinePrinted(b, p.right)
    ensures PredicatePrinted(a + " " + p.operator + " " + b, p)
  {
    var text := a + " " + p.operator + " " + b;
    forall env: Env
      ensures ReadPredicate(text, env) ==
                var x, y := ReadAffine(a, env), ReadAffine(b, env);
                if x.None? || y.None? then None else Compare(p.operator, x.value, y.value)
      ensures !Readable(p) ==> ReadAffine(a, env).None? || ReadAffine(b, env).None?
    {
      ComparisonReads(a, p.operator, b, env);
      if AllZero(p.left) {
        EmptyWhenUnreadable(a, p.left, env);
      } else if AllZero(p.right) {
        EmptyWhenUnreadable(b, p.right, env);
      }
    }
    hide ReadPredicate, IsPlain, Compare, ComparisonHolds, ReadAffine, AllZero, AffineValue, IsOperator, AffinePrinted,
      AgreesOnAffine;
    forall m: Model, env: Env | Readable(p) && Agrees(m, env, p)
      ensures ReadPredicate(text, env) == Some(Truth(p, m))
    {
      AffineReads(a, p.left, m, env);
      AffineReads(b, p.right, m, env);
      ComparesSome(p.operator, AffineValue(p.left, m), AffineValue(p.right, m));
    }
  }

  lemma MultiplePrinted(a: string, p: Predicate)
    requires p.MultipleOf? && IsDigits(p.modulus) && AffinePrinted(a, p.value)
    ensures PredicatePrinted("multiple_of(" + a + ", " + p.modulus + ")", p)
  {
    var text := "multiple_of(" + a + ", " + p.modulus + ")";
    forall env: Env
      ensures ReadPredicate(text, env) ==
                var v := ReadAffine(a, env);
                if v.None? then None else Some(Divides(DigitsValue(p.modulus), v.value))
      ensures !Readable(p) ==> ReadAffine(a, env).None?
    {
      MultipleReads(a, p.modulus, env);
      if AllZero(p.value) {
        EmptyWhenUnreadable(a, p.value, env);
      }
    }
    hide ReadPredicate, IsPlain, ReadAffine, AllZero, AffineValue, AffinePrinted, AgreesOnAffine, Divides, IsMultiple,
      DigitsValue, IsDigits;
    forall m: Model, env: Env | Readable(p) && Agrees(m, env, p)
      ensures ReadPredicate(text, env) == Some(Truth(p, m))
    {
      AffineReads(a, p.value, m, env);
      DividesMeans(DigitsValue(p.modulus), AffineValue(p.value, m));
    }
  }

  lemma NoAliasPrinted(p: Predicate)
    requires p.NoAlias? && IsName(p.first) && IsName(p.second)
    ensures PredicatePrinted("noalias(" + PrintedRegion(p.first) + ", " + PrintedRegion(p.second) + ")", p)
  {
    hide ReadPredicate, PrintedRegion;
    forall m: Model, env: Env | Agrees(m, env, p)
      ensures ReadPredicate("noalias(" + PrintedRegion(p.first) + ", " + PrintedRegion(p.second) + ")", env) ==
                Some(Truth(p, m))
    {
      NoAliasReads(p.first, p.second, env);
    }
  }

  lemma AlignedPrinted(p: Predicate)
    requires p.Aligned? && IsName(p.pointer.name)
    ensures PredicatePrinted("aligned(" + PrintedPointer(p.pointer) + ", " + Decimal(p.alignment) + ")", p)
  {
    hide ReadPredicate, Decimal;
    var name := PrintedPointer(p.pointer);
    forall m: Model, env: Env | Agrees(m, env, p)
      ensures ReadPredicate("aligned(" + name + ", " + Decimal(p.alignment) + ")", env) == Some(Truth(p, m))
    {
      AlignedReads(name, p.alignment, env);
    }
  }

  method AppendLeaves(lines: seq<string>, ghost before: seq<Predicate>, p: Predicate) returns (r: seq<string>)
    requires LinesDenote(lines, before) && WellFormed(p)
    ensures LinesDenote(r, before + Flatten(p))
  {
    var leaves, j := Flatten(p), 0;
    LeavesAreFormattable(p);
    hide PredicatePrinted, Flatten, WellFormed, Readable, LinesDenote;
    r := lines;
    assert before + leaves[..0] == before;
    while j < |leaves|
      invariant 0 <= j <= |leaves| && LinesDenote(r, before + leaves[..j])
    {
      var line := FormatPredicate(leaves[j]);
      OneMoreLine(r, before + leaves[..j], line, leaves[j]);
      assert before + leaves[..j + 1] == before + leaves[..j] + [leaves[j]];
      r := r + [line];
      j := j + 1;
    }
    assert leaves[..j] == leaves;
  }

  lemma LeavesAreFormattable(p: Predicate)
    requires WellFormed(p)
    ensures forall i :: 0 <= i < |Flatten(p)| ==> WellFormed(Flatten(p)[i]) && !Flatten(p)[i].Conjunction?
  {
    hide WellFormed;
    FlattenKeepsTruth(p, Model(_ => 0, (_, _) => true, (_, _) => true));
    forall i | 0 <= i < |Flatten(p)| ensures Flatten(p)[i] in Flatten(p) {
    }
  }

  /** The lines that a contract's predicates become, one for each leaf. */
  method FormatContract(predicates: seq<Predicate>) returns (lines: seq<string>)
    requires AllWellFormed(predicates)
    ensures LinesDenote(lines, FlattenAll(predicates))
  {
    lines := [];
    hide PredicatePrinted, Flatten, WellFormed, Readable, LinesDenote;
    assert LinesDenote([], FlattenAll(predicates[..0])) by {
      NoLines(predicates);
    }
    var i := 0;
    while i < |predicates|
      invariant 0 <= i <= |predicates| && LinesDenote(lines, FlattenAll(predicates[..i]))
    {
      assert predicates[i] in predicates;
      lines := AppendLeaves(lines, FlattenAll(predicates[..i]), predicates[i]);
      OneMorePredicate(predicates, i);
      i := i + 1;
    }
    assert predicates[..i] == predicates;
  }

  ghost predicate LinesDenote(lines: seq<string>, leaves: seq<Predicate>) {
    |lines| == |leaves| && forall i :: 0 <= i < |lines| ==> PredicatePrinted(lines[i], leaves[i])
  }

  lemma NoLines(predicates: seq<Predicate>)
    ensures LinesDenote([], FlattenAll(predicates[..0]))
  {
  }

  lemma OneMoreLine(lines: seq<string>, leaves: seq<Predicate>, line: string, leaf: Predicate)
    requires LinesDenote(lines, leaves) && PredicatePrinted(line, leaf)
    ensures LinesDenote(lines + [line], leaves + [leaf])
  {
    hide PredicatePrinted;
  }

  lemma OneMorePredicate(predicates: seq<Predicate>, i: nat)
    requires i < |predicates|
    ensures FlattenAll(predicates[..i + 1]) == FlattenAll(predicates[..i]) + Flatten(predicates[i])
  {
    FlattenAllAdds(predicates[..i], [predicates[i]]);
    assert predicates[..i + 1] == predicates[..i] + [predicates[i]];
    assert FlattenAll([predicates[i]]) == Flatten(predicates[i]) + FlattenAll([]);
  }

  /** The lines can all be read, and then hold, exactly when the contract is true and all of it is readable. */
  lemma LinesMeanTheContract(predicates: seq<Predicate>, lines: seq<string>, m: Model, env: Env)
    requires LinesDenote(lines, FlattenAll(predicates))
    requires AllAgree(predicates, m, env)
    ensures (forall i :: 0 <= i < |lines| ==> ReadPredicate(lines[i], env) == Some(true))
       <==> AllTrue(predicates, m) && forall p :: p in FlattenAll(predicates) ==> Readable(p)
  {
    var leaves := FlattenAll(predicates);
    FlattenAllKeepsTruth(predicates, m);
    FlattenAllKeepsAgreement(predicates, m, env);
    hide ReadPredicate, Truth, Readable, Agrees;
    forall i | 0 <= i < |lines|
      ensures ReadPredicate(lines[i], env) == Some(true) <==> Truth(leaves[i], m) && Readable(leaves[i])
    {
      assert PredicatePrinted(lines[i], leaves[i]);
      assert leaves[i] in leaves;
    }
    assert forall q :: q in leaves ==> exists i :: 0 <= i < |leaves| && leaves[i] == q;
  }

  /** Every reader's names stand for something. */
  lemma SomeModelAgrees(env: Env) returns (m: Model)
    ensures forall p :: Agrees(m, env, p)
  {
    m := Model(
      (t: Term) => env.value(match t case Parameter(name) => name case SliceLength(name) => name + "_len"),
      env.disjoint,
      (q: Pointer, n: nat) =>
        env.aligned(match q case PointerParameter(name) => name case SliceData(name) => name + "_data", n));
    forall p ensures Agrees(m, env, p) {
      ModelAgrees(m, env, p);
    }
  }

  lemma {:induction false} ModelAgrees(m: Model, env: Env, p: Predicate)
    requires forall t :: AgreesOnTerm(m, env, t)
    requires forall a, b :: env.disjoint(a, b) == m.disjoint(a, b)
    requires forall name, n :: env.aligned(name, n) == m.aligned(PointerParameter(name), n)
    requires forall name, n :: env.aligned(name + "_data", n) == m.aligned(SliceData(name), n)
    ensures Agrees(m, env, p)
    decreases p
  {
    if p.Conjunction? {
      forall q | q in p.items ensures Agrees(m, env, q) {
        ModelAgrees(m, env, q);
      }
    }
  }

  /** One is a slice's length, and the other a parameter named like it. */
  predicate Clash(s: Term, t: Term) {
    || (s.Parameter? && t.SliceLength? && s.name == t.name + "_len")
    || (t.Parameter? && s.SliceLength? && t.name == s.name + "_len")
  }

  lemma NamesClash(s: Term, t: Term)
    ensures PrintedName(s) == PrintedName(t) <==> s == t || Clash(s, t)
  {
    if s.SliceLength? && t.SliceLength? {
      var a, b := PrintedName(s), PrintedName(t);
      assert a[..|a| - 4] == s.name && b[..|b| - 4] == t.name;
    }
  }

  /** The names can stand for two terms at once. */
  ghost predicate Tellable(m: Model, s: Term, t: Term) {
    exists env :: AgreesOnTerm(m, env, s) && AgreesOnTerm(m, env, t)
  }

  /** Whatever two terms are worth, some reader's names stand for both, exactly when the two do not clash. */
  lemma ReadersExist(s: Term, t: Term)
    ensures (forall m :: Tellable(m, s, t)) <==> !Clash(s, t)
  {
    NamesClash(s, t);
    if Clash(s, t) {
      var m := Model((u: Term) => if u.Parameter? then 0 else 1, (_, _) => true, (_, _) => true);
      assert !Tellable(m, s, t);
    } else {
      forall m: Model ensures Tellable(m, s, t) {
        var env := Env((name: string) => if name == PrintedName(s) then m.value(s) else m.value(t), (_, _) => true,
                       (_, _) => true);
        assert AgreesOnTerm(m, env, s) && AgreesOnTerm(m, env, t);
      }
    }
  }

  lemma MultipleReads(value: string, modulus: string, env: Env)
    requires IsPlain(value) && IsDigits(modulus)
    ensures var v := ReadAffine(value, env);
            ReadPredicate("multiple_of(" + value + ", " + modulus + ")", env)
              == if v.None? then None else Some(Divides(DigitsValue(modulus), v.value))
  {
    CallReads("multiple_of", value, modulus);
    assert "multiple_of" + "(" == "multiple_of(";
  }

  lemma NoAliasReads(first: string, second: string, env: Env)
    requires IsName(first) && IsName(second)
    ensures ReadPredicate("noalias(" + PrintedRegion(first) + ", " + PrintedRegion(second) + ")", env) ==
              Some(env.disjoint(first, second))
  {
    var text := "noalias(" + PrintedRegion(first) + ", " + PrintedRegion(second) + ")";
    OtherCall(text, "multiple_of");
    assert ',' !in PrintedRegion(first);
    CallReads("noalias", PrintedRegion(first), PrintedRegion(second));
    assert "noalias" + "(" == "noalias(";
    RegionReads(first);
    RegionReads(second);
  }

  lemma AlignedReads(pointer: string, alignment: nat, env: Env)
    requires IsName(pointer)
    ensures ReadPredicate("aligned(" + pointer + ", " + Decimal(alignment) + ")", env) ==
              Some(env.aligned(pointer, alignment))
  {
    var text := "aligned(" + pointer + ", " + Decimal(alignment) + ")";
    OtherCall(text, "multiple_of");
    OtherCall(text, "noalias");
    CallReads("aligned", pointer, Decimal(alignment));
    assert "aligned" + "(" == "aligned(";
  }

  /** `x >= 0` is well-formed, but its right side is all zero. */
  lemma ZeroBoundIsUnreadable()
    ensures WellFormed(ZeroBound()) && !Readable(ZeroBound()) && ZeroBound().Comparison?
  {
    assert IsName("x") && IsNumeral("1") && IsNumeral("0");
  }

  function ZeroBound(): Predicate {
    Comparison(">=", Affine([TermCoefficient(Parameter("x"), "1")], "0"), Affine([], "0"))
  }

  /** It is printed with nothing after the operator, which cannot be read back. */
  method PrintZeroBound() returns (text: string)
    ensures forall env :: ReadPredicate(text, env) == None
  {
    ZeroBoundIsUnreadable();
    hide Readable, WellFormed, ZeroBound;
    var p := ZeroBound();
    text := FormatPredicate(p);
  }
}
