/**
 Reading contract text: the meaning of an affine expression written as signed components with `*`,
 and of a predicate over such expressions. Nothing here knows how the text was printed.
 */
module ContractText {
  import opened Basics

  /** The value of every printed name, and which memory facts hold. */
  datatype Env = Env(value: string -> int, disjoint: (string, string) -> bool, aligned: (string, nat) -> bool)

  predicate IsDigit(c: char) { '0' <= c <= '9' }

  predicate IsNameStart(c: char) { c == '_' || 'a' <= c <= 'z' || 'A' <= c <= 'Z' }

  predicate IsNameChar(c: char) { IsNameStart(c) || IsDigit(c) }

  predicate IsName(s: string) {
    s != "" && IsNameStart(s[0]) && forall c :: c in s ==> IsNameChar(c)
  }

  predicate IsDigits(s: string) {
    s != "" && forall c :: c in s ==> IsDigit(c)
  }

  function DigitsValue(s: string): nat {
    if s == "" then 0
    else DigitsValue(s[..|s| - 1]) * 10 + (if IsDigit(s[|s| - 1]) then s[|s| - 1] as nat - '0' as nat else 0)
  }

  /** The words between single spaces. */
  function Split(s: string): (words: seq<string>)
    ensures words != []
  {
    if s == "" then [""]
    else
      var rest := Split(s[1..]);
      if s[0] == ' ' then [""] + rest else [[s[0]] + rest[0]] + rest[1..]
  }

  /** A number, a number times a name, or a name: its value and how many words it took. */
  function ReadTerm(words: seq<string>, env: Env): (r: Option<(int, nat)>)
    ensures r.Some? ==> 0 < r.value.1 <= |words|
  {
    if words == [] then None
    else if |words| > 1 && words[1] == "*" then
      if |words| > 2 && IsDigits(words[0]) && IsName(words[2])
      then Some((DigitsValue(words[0]) * env.value(words[2]), 3)) else None
    else if IsDigits(words[0]) then Some((DigitsValue(words[0]), 1))
    else if IsName(words[0]) then Some((env.value(words[0]), 1))
    else None
  }

  /** The rest of a sum: signs and terms in turn. */
  function ReadMore(words: seq<string>, env: Env, sum: int): Option<int> {
    if words == [] then Some(sum)
    else if !IsSign(words[0]) then None
    else
      match ReadTerm(words[1..], env)
      case None => None
      case Some((value, n)) => ReadMore(words[1 + n..], env, sum + Signed(words[0], value))
  }

  function ReadSum(words: seq<string>, env: Env, negative: bool): Option<int> {
    match ReadTerm(words, env)
    case None => None
    case Some((value, n)) => ReadMore(words[n..], env, if negative then -value else value)
  }

  /** A sum whose first term may have a minus sign in front. */
  function ReadAffine(text: string, env: Env): Option<int> {
    if text == "" then None
    else if text[0] == '-' then ReadSum(Split(text[1..]), env, true)
    else ReadSum(Split(text), env, false)
  }

  /** The first place where `stop` holds cuts the text in two. */
  function Cut(s: string, stop: char -> bool): (r: Option<(string, string)>)
    ensures r.Some? ==> s == r.value.0 + r.value.1 && r.value.1 != ""
  {
    if s == "" then None
    else if stop(s[0]) then Some(("", s))
    else
      match Cut(s[1..], stop)
      case None => None
      case Some((before, after)) => Some(([s[0]] + before, after))
  }

  function Compare(operator: string, a: int, b: int): Option<bool> {
    match operator
    case "==" => Some(a == b)
    case "!=" => Some(a != b)
    case "<" => Some(a < b)
    case "<=" => Some(a <= b)
    case ">" => Some(a > b)
    case ">=" => Some(a >= b)
    case _ => None
  }

  predicate IsSpace(c: char) { c == ' ' }

  predicate IsComma(c: char) { c == ',' }

  predicate IsOperatorChar(c: char) { c in "=!<>" }

  function ReadComparison(text: string, env: Env): Option<bool> {
    match Cut(text, IsOperatorChar)
    case None => None
    case Some((left, rest)) =>
      match Cut(rest, IsSpace)
      case None => None
      case Some((operator, right)) =>
        if left == "" then None
        else
          var a, b := ReadAffine(left[..|left| - 1], env), ReadAffine(right[1..], env);
          if a.None? || b.None? then None else Compare(operator, a.value, b.value)
  }

  /** The arguments of `name(first, second)`. */
  function ReadCall(text: string, name: string): Option<(string, string)> {
    var head := name + "(";
    if head <= text && |head| < |text| && text[|text| - 1] == ')' then
      match Cut(text[|head|..|text| - 1], IsComma)
      case None => None
      case Some((first, rest)) => if ", " <= rest then Some((first, rest[2..])) else None
    else None
  }

  predicate Divides(modulus: int, value: int) {
    if modulus == 0 then value == 0 else value % modulus == 0
  }

  predicate IsBracket(c: char) { c == '[' }

  /** The name of a slice written with its data from zero to its length. */
  function ReadRegion(text: string): Option<string> {
    match Cut(text, IsBracket)
    case None => None
    case Some((data, range)) =>
      if |data| < 5 || data[|data| - 5..] != "_data" then None
      else
        var name := data[..|data| - 5];
        if range == "[0.." + name + "_len]" then Some(name) else None
  }

  /** Whether the printed predicate holds. */
  function ReadPredicate(text: string, env: Env): Option<bool> {
    match ReadCall(text, "multiple_of")
    case Some((value, modulus)) =>
      var v := ReadAffine(value, env);
      if v.Some? && IsDigits(modulus) then Some(Divides(DigitsValue(modulus), v.value)) else None
    case None =>
      match ReadCall(text, "noalias")
      case Some((left, right)) =>
        var a, b := ReadRegion(left), ReadRegion(right);
        if a.Some? && b.Some? then Some(env.disjoint(a.value, b.value)) else None
      case None =>
        match ReadCall(text, "aligned")
        case Some((pointer, alignment)) =>
          if IsName(pointer) && IsDigits(alignment) then Some(env.aligned(pointer, DigitsValue(alignment))) else None
        case None => ReadComparison(text, env)
  }

  // ---------- how texts put together are read ----------

  lemma {:induction false} SplitJoins(a: string, b: string)
    ensures Split(a + " " + b) == Split(a) + Split(b)
  {
    if a == "" {
      assert (a + " " + b)[1..] == b;
    } else {
      assert (a + " " + b)[1..] == a[1..] + " " + b;
      SplitJoins(a[1..], b);
    }
  }

  lemma {:induction false} SplitWord(w: string)
    requires ' ' !in w
    ensures Split(w) == [w]
  {
    if w != "" {
      SplitWord(w[1..]);
      assert w == [w[0]] + w[1..];
    }
  }

  /** Words after a term that was read do not change it. */
  lemma ReadTermStays(words: seq<string>, more: seq<string>, env: Env)
    requires ReadTerm(words, env).Some? && (more == [] || more[0] != "*")
    ensures ReadTerm(words + more, env) == ReadTerm(words, env)
  {
    if |words| > 1 {
      assert (words + more)[1] == words[1];
    }
  }

  predicate IsSign(word: string) { word == "+" || word == "-" }

  function Signed(sign: string, value: int): int { if sign == "+" then value else 0 - value }

  /** A term that takes all of the given words. */
  ghost predicate IsTerm(words: seq<string>, env: Env, value: int) {
    ReadTerm(words, env) == Some((value, |words|))
  }

  /** A sign and a term at the end of a sum add to its value. */
  lemma {:induction false} ReadMoreAdds(
    words: seq<string>, sign: string, term: seq<string>, value: int, env: Env, sum: int
  )
    requires ReadMore(words, env, sum).Some? && IsSign(sign) && IsTerm(term, env, value)
    ensures ReadMore(words + ([sign] + term), env, sum) == Some(ReadMore(words, env, sum).value + Signed(sign, value))
    decreases |words|
  {
    hide ReadTerm;
    var more := [sign] + term;
    if words == [] {
      assert words + more == more && more[1..] == term && more[1 + |term|..] == [];
    } else {
      var (v, n) := ReadTerm(words[1..], env).value;
      assert (words + more)[1..] == words[1..] + more;
      ReadTermStays(words[1..], more, env);
      assert (words + more)[1 + n..] == words[1 + n..] + more;
      ReadMoreAdds(words[1 + n..], sign, term, value, env, sum + Signed(words[0], v));
    }
  }

  lemma ReadSumAdds(words: seq<string>, negative: bool, sign: string, term: seq<string>, value: int, env: Env)
    requires ReadSum(words, env, negative).Some? && IsSign(sign) && IsTerm(term, env, value)
    ensures ReadSum(words + ([sign] + term), env, negative) ==
              Some(ReadSum(words, env, negative).value + Signed(sign, value))
  {
    hide ReadTerm;
    var more := [sign] + term;
    var (v, n) := ReadTerm(words, env).value;
    ReadTermStays(words, more, env);
    assert (words + more)[n..] == words[n..] + more;
    ReadMoreAdds(words[n..], sign, term, value, env, if negative then -v else v);
  }

  /** A signed component at the end of an expression adds to its value. */
  lemma ReadAffineAdds(text: string, sign: string, component: string, value: int, env: Env)
    requires ReadAffine(text, env).Some? && IsSign(sign) && IsTerm(Split(component), env, value)
    ensures ReadAffine(text + " " + sign + " " + component, env) ==
              Some(ReadAffine(text, env).value + Signed(sign, value))
  {
    hide Split, ReadSum, IsTerm, Signed;
    var more, words := sign + " " + component, [sign] + Split(component);
    assert Split(more) == words by {
      SplitJoins(sign, component);
      SplitWord(sign);
    }
    var negative := text[0] == '-';
    var whole, body := text + " " + sign + " " + component, if negative then text[1..] else text;
    SplitJoins(body, more);
    assert (if negative then whole[1..] else whole) == body + " " + more;
    assert whole[0] == text[0];
    ReadSumAdds(Split(body), negative, sign, Split(component), value, env);
  }

  /** A component alone, possibly negated, is an expression. */
  lemma ReadAffineStarts(component: string, value: int, env: Env)
    requires component != "" && component[0] != '-' && IsTerm(Split(component), env, value)
    ensures ReadAffine(component, env) == Some(value) && ReadAffine("-" + component, env) == Some(-value)
  {
    hide Split, ReadTerm;
    var words := Split(component);
    assert words[|words|..] == [];
    assert ("-" + component)[1..] == component;
  }

  /** A cut is found behind any text without stops. */
  lemma {:induction false} CutFinds(a: string, b: string, stop: char -> bool)
    requires b != "" && stop(b[0]) && forall c :: c in a ==> !stop(c)
    ensures Cut(a + b, stop) == Some((a, b))
  {
    if a == "" {
      assert a + b == b;
    } else {
      assert (a + b)[1..] == a[1..] + b && a == [a[0]] + a[1..];
      CutFinds(a[1..], b, stop);
    }
  }

  /** The characters of an expression. */
  predicate IsPlainChar(c: char) { IsNameChar(c) || c in " +-*" }

  predicate IsPlain(s: string) { forall c :: c in s ==> IsPlainChar(c) }

  predicate IsOperator(word: string) { word in ["==", "!=", "<", "<=", ">", ">="] }

  lemma OperatorIs(word: string)
    requires IsOperator(word)
    ensures word != "" && IsOperatorChar(word[0]) && forall c :: c in word ==> !IsSpace(c) && c != '('
  {
  }

  /** `left operator right` is read as a comparison. */
  lemma ComparisonReads(left: string, operator: string, right: string, env: Env)
    requires IsPlain(left) && IsPlain(right) && IsOperator(operator)
    ensures ReadPredicate(left + " " + operator + " " + right, env) ==
      var a, b := ReadAffine(left, env), ReadAffine(right, env);
      if a.None? || b.None? then None else Compare(operator, a.value, b.value)
  {
    OperatorIs(operator);
    var first, rest := left + " ", operator + (" " + right);
    var text := left + " " + operator + " " + right;
    assert text == first + rest;
    assert forall c :: c in first ==> !IsOperatorChar(c);
    assert '(' !in text;
    NoCall(text, "multiple_of");
    NoCall(text, "noalias");
    NoCall(text, "aligned");
    hide IsOperator, ReadAffine, ReadCall, Compare, IsPlain, ReadRegion, IsDigits, IsName, DigitsValue, Divides, Cut;
    CutFinds(first, rest, IsOperatorChar);
    CutFinds(operator, " " + right, IsSpace);
    assert first[..|first| - 1] == left && (" " + right)[1..] == right;
  }

  lemma NoCall(text: string, name: string)
    requires '(' !in text
    ensures ReadCall(text, name) == None
  {
    var head := name + "(";
    assert head[|name|] == '(';
    assert |name| < |text| ==> text[|name|] != head[|name|];
  }

  lemma CallReads(name: string, first: string, second: string)
    requires ',' !in first
    ensures ReadCall(name + "(" + first + ", " + second + ")", name) == Some((first, second))
  {
    var text, head, rest := name + "(" + first + ", " + second + ")", name + "(", ", " + second;
    assert text == head + (first + rest) + ")";
    assert text[|head|..|text| - 1] == first + rest;
    CutFinds(first, rest, IsComma);
    assert rest[2..] == second;
  }

  lemma OtherCall(text: string, name: string)
    requires text != "" && name != "" && text[0] != name[0]
    ensures ReadCall(text, name) == None
  {
    assert (name + "(")[0] == name[0];
  }

  lemma RegionReads(name: string)
    requires IsName(name)
    ensures ReadRegion(name + "_data[0.." + name + "_len]") == Some(name)
  {
    var data, range := name + "_data", "[0.." + name + "_len]";
    assert name + "_data[0.." + name + "_len]" == data + range;
    CutFinds(data, range, IsBracket);
    assert data[|data| - 5..] == "_data" && data[..|data| - 5] == name;
  }

  // ---------- printed numbers ----------

  function Decimal(n: nat): (s: string)
    ensures IsDigits(s) && DigitsValue(s) == n
  {
    var last := ['0' + (n % 10) as char];
    if n < 10 then
      assert last[..0] == "";
      last
    else
      var front := Decimal(n / 10);
      assert (front + last)[..|front|] == front;
      front + last
  }
}
