/**
 A recursive-descent reader for the printed SQL of literals, columns and expressions of any kind, and the proof that
 it recovers the printed tree up to what no text shows: the two names of POWER, the table of an EXCLUDED column, and
 whether a NOT stands over or under a suffix such as IS NULL.

 Most forms start in a way of their own (a quote, a digit or minus sign, a small letter, a capital letter, a
 parenthesis) and end in one. NOT and the suffixes IS NULL, IS NOT NULL, IN and NOT IN have no parentheses: a clause is
 read as its NOTs, a form with delimiters, and its suffixes.
 */
module SqlReader {
  import opened Common
  import opened SqlTree
  import opened Decimal

  // ---------------------------------------------------------------------------------- The fragment

  /** What can follow an operand without parentheses: IS NULL, IS NOT NULL, IN (...), NOT IN (...). */
  datatype Suffix = Suffix(op: ExprType, list: seq<Clause>)

  predicate IsSuffix(op: ExprType) { op == IsNull || op == IsNotNull || op == InType || op == NotInType }

  /** A clause with a suffix, as the text shows it: every NOT in front of the clause applies to the whole. */
  function Suffixed(c: Clause, suffix: Suffix): Clause {
    if c.Expression? && c.op == Not && |c.operands| == 1 then Expression(Not, [Suffixed(c.operands[0], suffix)])
    else Expression(suffix.op, [c] + suffix.list)
  }

  function SuffixedAll(c: Clause, suffixes: seq<Suffix>): Clause
    decreases |suffixes|
  {
    if suffixes == [] then c else SuffixedAll(Suffixed(c, suffixes[0]), suffixes[1..])
  }

  /** The tree up to what no text distinguishes: exponent and power print alike, an EXCLUDED column does not print
      its table, and NOT under a suffix prints like NOT over it. */
  function Canonical(c: Clause): Clause {
    match c
    case Expression(op, operands) =>
      var all := CanonicalAll(operands);
      if IsSuffix(op) && all != [] then Suffixed(all[0], Suffix(op, all[1..]))
      else Expression(if op == Exponent then Power else op, all)
    case Column(tablePath, fieldPath, key, excluded) => Column(if excluded then []
      else tablePath, fieldPath, key, excluded)
    case _ => c
  }

  function CanonicalAll(cs: seq<Clause>): (r: seq<Clause>)
    ensures |r| == |cs|
  {
    if cs == [] then [] else [Canonical(cs[0])] + CanonicalAll(cs[1..])
  }

  /** The forms whose text has delimiters of its own. NOT, IS NULL, IN and their negations do not. */
  predicate Delimits(shape: Shape) {
    !shape.NotForm? && !shape.Postfix? && !shape.InForm? && !shape.NoShape?
  }

  /** An optional minus sign, digits, a point and digits: what std::to_string has for a finite number. */
  predicate IsDecimal(s: string) {
    if s != "" && s[0] == '-' then IsFraction(s[1..]) else IsFraction(s)
  }

  predicate IsFraction(s: string) {
    var n := DigitRun(s);
    n > 0 && n + 1 < |s| && s[n] == '.' && DigitRun(s[n + 1..]) == |s| - (n + 1)
  }

  /** Literals, columns, and every expression of them that the printer accepts. */
  predicate Readable(c: Clause) {
    match c
    case Str(_) => true
    case Int(_) => true
    case Float(digits) => IsDecimal(digits)
    case Bool(_) => true
    case All => true
    case Default => true
    case Column(_, _, _, _) => true
    case Expression(op, operands) =>
      ArityOk(ShapeOf(op), |operands|) && forall i :: 0 <= i < |operands| ==> Readable(operands[i])
    case _ => false
  }

  /** What may follow a clause: the end of the text, a space, a comma or a closing parenthesis. */
  predicate Delimited(rest: string) { rest == "" || rest[0] == ' ' || rest[0] == ',' || rest[0] == ')' }

  // ---------------------------------------------------------------------------------- The reader

  /** The text after a given prefix, if the text has it. */
  function After(prefix: string, s: string): (r: Option<string>)
    ensures r.Some? <==> prefix <= s
    ensures r.Some? ==> s == prefix + r.value
  {
    if prefix <= s then Some(s[|prefix|..]) else None
  }

  /** The inside of a quoted string, and what follows the closing quote. */
  function ReadBody(s: string): (r: Option<(string, string)>)
    ensures r.Some? ==> |r.value.1| < |s|
  {
    if s == "" then None
    else if s[0] == '\'' then
      if |s| > 1 && s[1] == '\'' then Prepend('\'', ReadBody(s[2..])) else Some(("", s[1..]))
    else if s[0] == '\\' then
      if |s| == 1 then None
      else if s[1] == '\\' then Prepend('\\', ReadBody(s[2..]))
      else if s[1] == 'n' then Prepend('\n', ReadBody(s[2..]))
      else if s[1] == 'r' then Prepend('\r', ReadBody(s[2..]))
      else if s[1] == 't' then Prepend('\t', ReadBody(s[2..]))
      else None
    else Prepend(s[0], ReadBody(s[1..]))
  }

  function Prepend(c: char, r: Option<(string, string)>): Option<(string, string)> {
    match r case Some((text, rest)) => Some(([c] + text, rest)) case None => None
  }

  /** Numbers joined by underscores; none if the text does not start with a digit. */
  function ReadPath(s: string): (r: (Path, string))
    ensures |r.1| <= |s|
  {
    var n := DigitRun(s);
    if n == 0 then ([], s)
    else if n + 1 < |s| && s[n] == '_' && IsDigit(s[n + 1]) then
      var (path, rest) := ReadPath(s[n + 1..]);
      ([Value(s[..n])] + path, rest)
    else ([Value(s[..n])], s[n..])
  }

  function ReadField(s: string): (r: Option<(Path, KeyType, string)>)
    ensures r.Some? ==> |r.value.2| < |s|
  {
    if |s| < 2 || s[1] != '_' then None
    else
      var (path, rest) := ReadPath(s[2..]);
      if s[0] == 'f' then Some((path, Simple, rest))
      else if s[0] == 'p' then Some((path, Primary, rest))
      else if s[0] == 'i' then Some((path, Index, rest))
      else None
  }

  function ReadColumn(s: string): (r: Option<(Clause, string)>)
    ensures r.Some? ==> |r.value.1| < |s|
  {
    match After("t_", s)
    case Some(s1) =>
      var (table, s2) := ReadPath(s1);
      (match After(".", s2)
       case Some(s3) =>
         (match ReadField(s3)
          case Some((path, key, rest)) => Some((Column(table, path, key, false), rest))
          case None => None)
       case None => None)
    case None =>
      (match ReadField(s)
       case Some((path, key, rest)) => Some((Column([], path, key, false), rest))
       case None => None)
  }

  function ReadInt(s: string): (r: Option<(Clause, string)>)
    ensures r.Some? ==> |r.value.1| < |s|
  {
    match After("-", s)
    case Some(s1) =>
      var n := DigitRun(s1);
      if n == 0 then None else Some((Int(0 - Value(s1[..n])), s1[n..]))
    case None =>
      var n := DigitRun(s);
      if n == 0 then None else Some((Int(Value(s[..n])), s[n..]))
  }

  /** An integer, or a number with digits behind a point, kept as its text. */
  function ReadNumber(s: string): (r: Option<(Clause, string)>)
    ensures r.Some? ==> |r.value.1| < |s|
  {
    match ReadInt(s)
    case None => None
    case Some((c, rest)) =>
      if |rest| > 1 && rest[0] == '.' && IsDigit(rest[1]) then
        var m := 1 + DigitRun(rest[1..]);
        Some((Float(s[..|s| - |rest| + m]), rest[m..]))
      else Some((c, rest))
  }

  predicate IsWordChar(c: char) { 'A' <= c <= 'Z' || c == '_' }

  /** The length of the leading keyword or function name. */
  function WordRun(s: string): (n: nat)
    ensures n <= |s| && (forall i :: 0 <= i < n ==> IsWordChar(s[i]))
  {
    if s == "" || !IsWordChar(s[0]) then 0 else 1 + WordRun(s[1..])
  }

  /** The function a name stands for, by the length of the name; LN and LOG are read apart. */
  function FunctionNamed(name: string): ExprType {
    if |name| <= 3 then NamedThree(name)
    else if |name| == 4 then NamedFour(name)
    else if |name| == 5 then NamedFive(name)
    else if |name| == 6 then NamedSix(name)
    else NamedLong(name)
  }

  function NamedThree(name: string): ExprType {
    if name == "SUM" then Sum
    else if name == "AVG" then Avg
    else if name == "MIN" then Min
    else if name == "MAX" then Max
    else if name == "ABS" then Abs
    else if name == "SIN" then Sin
    else if name == "COS" then Cos
    else if name == "TAN" then Tan
    else UnknownType
  }

  function NamedFour(name: string): ExprType {
    if name == "CEIL" then Ceil
    else if name == "SQRT" then Sqrt
    else if name == "TRIM" then Trim
    else if name == "LEFT" then LeftType
    else UnknownType
  }

  function NamedFive(name: string): ExprType {
    if name == "POWER" then Power
    else if name == "COUNT" then CountType
    else if name == "ROUND" then Round
    else if name == "FLOOR" then Floor
    else if name == "LOWER" then Lower
    else if name == "UPPER" then Upper
    else if name == "RIGHT" then RightType
    else if name == "LEAST" then Least
    else UnknownType
  }

  function NamedSix(name: string): ExprType {
    if name == "RANDOM" then Random
    else if name == "CONCAT" then Concat
    else if name == "LENGTH" then Length
    else UnknownType
  }

  function NamedLong(name: string): ExprType {
    if name == "ARRAY_AGG" then ArrayAgg
    else if name == "STRING_AGG" then StringAgg
    else if name == "JSON_AGG" then JsonAgg
    else if name == "REPLACE" then Replace
    else if name == "SPLIT_PART" then SplitPart
    else if name == "COALESCE" then Coalesce
    else if name == "GREATEST" then Greatest
    else UnknownType
  }

  /** The binary operator written with a given sign. */
  function OperatorSigned(sign: string): ExprType {
    if |sign| == 3 then ShortSigned(sign) else LongSigned(sign)
  }

  function ShortSigned(sign: string): ExprType {
    if sign == " + " then Add
    else if sign == " - " then Subtract
    else if sign == " * " then Multiply
    else if sign == " / " then Divide
    else if sign == " % " then Modulo
    else if sign == " = " then Equals
    else if sign == " > " then GreaterThan
    else if sign == " < " then LessThan
    else if sign == " ~ " then RegexpMatch
    else UnknownType
  }

  function LongSigned(sign: string): ExprType {
    if sign == " <> " then NotEquals
    else if sign == " >= " then GreaterThanOrEquals
    else if sign == " <= " then LessThanOrEquals
    else if sign == " AND " then And
    else if sign == " OR " then Or
    else if sign == " LIKE " then Like
    else if sign == " ILIKE " then ILike
    else if sign == " SIMILAR TO " then SimilarTo
    else if sign == " BETWEEN " then BetweenType
    else UnknownType
  }

  /** The position of the next space. */
  function NextSpace(s: string): (n: nat)
    ensures n <= |s| && (forall i :: 0 <= i < n ==> s[i] != ' ') && (n < |s| ==> s[n] == ' ')
  {
    if s == "" || s[0] == ' ' then 0 else 1 + NextSpace(s[1..])
  }

  /** The operator sign at the start of a text: a word between spaces, or " SIMILAR TO ". */
  function SignRun(s: string): (n: nat)
    ensures n <= |s|
  {
    if s == "" then 0
    else
      var n := 1 + NextSpace(s[1..]);
      if n == |s| then 0
      else if s[..n + 1] == " SIMILAR " then if " SIMILAR TO " <= s then 12 else 0
      else n + 1
  }

  /** A clause: any number of NOTs, a form with delimiters of its own, and its suffixes. */
  function ReadClause(s: string): (r: Option<(Clause, string)>)
    ensures r.Some? ==> |r.value.1| < |s|
    decreases |s|, 3
  {
    match After("NOT ", s)
    case Some(s1) =>
      (match ReadClause(s1) case Some((c, rest)) => Some((Expression(Not, [c]), rest)) case None => None)
    case None =>
      match ReadAtom(s)
      case None => None
      case Some((c, s1)) =>
        var (suffixes, rest) := ReadSuffixes(s1);
        Some((SuffixedAll(c, suffixes), rest))
  }

  function ReadSuffixes(s: string): (r: (seq<Suffix>, string))
    ensures |r.1| <= |s|
    decreases |s|, 1
  {
    match ReadSuffix(s)
    case None => ([], s)
    case Some((suffix, s1)) =>
      var (suffixes, rest) := ReadSuffixes(s1);
      ([suffix] + suffixes, rest)
  }

  /** One suffix, if there is one. " IN (" is none where no list follows: in POSITION(x IN (a + b)). */
  function ReadSuffix(s: string): (r: Option<(Suffix, string)>)
    ensures r.Some? ==> |r.value.1| < |s|
    decreases |s|, 0
  {
    match After(" IS NULL", s)
    case Some(rest) => Some((Suffix(IsNull, []), rest))
    case None =>
      match After(" IS NOT NULL", s)
      case Some(rest) => Some((Suffix(IsNotNull, []), rest))
      case None =>
        match After(" IN (", s)
        case Some(s1) => ReadList(InType, s1)
        case None =>
          match After(" NOT IN (", s)
          case Some(s1) => ReadList(NotInType, s1)
          case None => None
  }

  function ReadList(op: ExprType, s: string): (r: Option<(Suffix, string)>)
    ensures r.Some? ==> |r.value.1| < |s|
    decreases |s|, 5
  {
    match ReadArguments(s) case Some((cs, rest)) => Some((Suffix(op, cs), rest)) case None => None
  }

  /** A form that starts and ends in its own way. */
  function ReadAtom(s: string): (r: Option<(Clause, string)>)
    ensures r.Some? ==> |r.value.1| < |s|
    decreases |s|, 2
  {
    if s == "" then None
    else if s[0] == '\'' then
      (match ReadBody(s[1..]) case Some((text, rest)) => Some((Str(text), rest)) case None => None)
    else if s[0] == '*' then Some((All, s[1..]))
    else if s[0] == '-' || IsDigit(s[0]) then ReadNumber(s)
    else if s[0] == '(' then ReadInfix(s[1..])
    else if WordRun(s) > 0 then ReadWord(s[..WordRun(s)], s[WordRun(s)..])
    else ReadColumn(s)
  }

  /** What follows an opening parenthesis: two operands around a sign, or BETWEEN with three. */
  function ReadInfix(s: string): (r: Option<(Clause, string)>)
    ensures r.Some? ==> |r.value.1| < |s|
    decreases |s|, 4
  {
    match ReadClause(s)
    case None => None
    case Some((left, s1)) =>
      var n := SignRun(s1);
      var op := OperatorSigned(s1[..n]);
      if op == UnknownType then None
      else if op == BetweenType then
        (match ReadThen(s1[n..], " AND ")
         case None => None
         case Some((low, s2)) =>
           (match ReadThen(s2, ")")
            case None => None
            case Some((high, rest)) => Some((Expression(BetweenType, [left, low, high]), rest))))
      else
        (match ReadThen(s1[n..], ")")
         case None => None
         case Some((right, rest)) => Some((Expression(op, [left, right]), rest)))
  }

  /** A clause and the given text after it. */
  function ReadThen(s: string, suffix: string): (r: Option<(Clause, string)>)
    ensures r.Some? ==> |r.value.1| < |s|
    decreases |s|, 4
  {
    match ReadClause(s)
    case None => None
    case Some((c, s1)) =>
      match After(suffix, s1) case Some(rest) => Some((c, rest)) case None => None
  }

  /** Clauses separated by ", " up to the closing parenthesis. */
  function ReadArguments(s: string): (r: Option<(seq<Clause>, string)>)
    ensures r.Some? ==> |r.value.1| < |s|
    decreases |s|, 4
  {
    match ReadClause(s)
    case None => None
    case Some((c, s1)) =>
      match After(")", s1)
      case Some(rest) => Some(([c], rest))
      case None =>
        match After(", ", s1)
        case None => None
        case Some(s2) =>
          match ReadArguments(s2)
          case Some((cs, rest)) => Some(([c] + cs, rest))
          case None => None
  }

  /** The WHEN/THEN pairs and the ELSE of a CASE. */
  function ReadCases(s: string): (r: Option<(seq<Clause>, string)>)
    ensures r.Some? ==> |r.value.1| < |s|
    decreases |s|, 4
  {
    match After(" WHEN ", s)
    case Some(s1) =>
      (match ReadThen(s1, " THEN ")
       case None => None
       case Some((condition, s2)) =>
         (match ReadClause(s2)
          case None => None
          case Some((result, s3)) =>
            (match ReadCases(s3)
             case Some((cs, rest)) => Some(([condition, result] + cs, rest))
             case None => None)))
    case None =>
      (match After(" ELSE ", s)
       case None => None
       case Some(s1) =>
         (match ReadThen(s1, " END")
          case Some((c, rest)) => Some(([c], rest))
          case None => None))
  }

  /** A clause that starts with a word: a keyword literal, EXCLUDED, CASE or a call. */
  function ReadWord(word: string, s: string): (r: Option<(Clause, string)>)
    ensures r.Some? ==> |r.value.1| <= |s|
    decreases |s|, 5
  {
    if word == "TRUE" then Some((Bool(true), s))
    else if word == "FALSE" then Some((Bool(false), s))
    else if word == "DEFAULT" then Some((Default, s))
    else if word == "EXCLUDED" then
      (match After(".", s)
       case None => None
       case Some(s1) =>
         (match ReadField(s1)
          case Some((path, key, rest)) => Some((Column([], path, key, true), rest))
          case None => None))
    else if word == "CASE" then
      (match ReadCases(s) case Some((cs, rest)) => Some((Expression(CaseType, cs), rest)) case None => None)
    else if word == "EXISTS" then
      (match After(" (", s)
       case None => None
       case Some(s1) =>
         (match ReadThen(s1, ")") case Some((c, rest)) => Some((Expression(ExistsType, [c]), rest)) case None => None))
    else
      match After("(", s)
      case None => None
      case Some(s1) => ReadCall(word, s1)
  }

  /** The arguments of a call, up to and including the closing parenthesis. */
  function ReadCall(word: string, s: string): (r: Option<(Clause, string)>)
    ensures r.Some? ==> |r.value.1| < |s|
    decreases |s|, 6
  {
    if word == "SUBSTRING" then ReadSubstring(s)
    else if word == "POSITION" then
      (match ReadThen(s, " IN ")
       case None => None
       case Some((part, s1)) =>
         (match ReadThen(s1, ")")
          case Some((whole, rest)) => Some((Expression(PositionType, [part, whole]), rest))
          case None => None))
    else if word == "RANDOM" then
      (match After(")", s) case Some(rest) => Some((Expression(Random, []), rest)) case None => None)
    else
      match ReadArguments(s)
      case None => None
      case Some((cs, rest)) =>
        if word == "LN" then Some((Expression(LogType, cs), rest))
        else if word == "LOG" then if |cs| == 2 then Some((Expression(LogType, [cs[1], cs[0]]), rest)) else None
        else if FunctionNamed(word) == UnknownType then None
        else Some((Expression(FunctionNamed(word), cs), rest))
  }

  function ReadSubstring(s: string): (r: Option<(Clause, string)>)
    ensures r.Some? ==> |r.value.1| < |s|
    decreases |s|, 5
  {
    match ReadThen(s, " FROM ")
    case None => None
    case Some((text, s1)) =>
      match ReadClause(s1)
      case None => None
      case Some((start, s2)) =>
        match After(")", s2)
        case Some(rest) => Some((Expression(SubstringType, [text, start]), rest))
        case None =>
          match After(" FOR ", s2)
          case None => None
          case Some(s3) =>
            match ReadThen(s3, ")")
            case Some((count, rest)) => Some((Expression(SubstringType, [text, start, count]), rest))
            case None => None
  }

  // ---------------------------------------------------------------------------------- Leaves read back

  /** A text is the one way to write a form: whatever delimiter follows, ReadAtom takes exactly this text and returns
      this clause. */
  ghost predicate Parses(text: string, c: Clause) {
    forall rest :: Delimited(rest) ==> ReadAtom(text + rest) == Some((c, rest))
  }

  /** A text is the one way to write a clause: the reader takes this text and the suffixes behind it, and returns this
      clause with those suffixes. */
  ghost predicate Reads(text: string, c: Clause) {
    forall rest :: Delimited(rest) ==>
      ReadClause(text + rest) == Some((SuffixedAll(c, ReadSuffixes(rest).0), ReadSuffixes(rest).1))
  }

  lemma Cut(prefix: string, tail: string)
    ensures After(prefix, prefix + tail) == Some(tail)
  {}

  lemma {:induction false} BodyReads(text: string, rest: string)
    requires Delimited(rest)
    ensures ReadBody(EscapeBody(text) + "'" + rest) == Some((text, rest))
  {
    if text == "" {
      assert EscapeBody(text) + "'" + rest == "'" + rest;
    } else {
      var tail := EscapeBody(text[1..]) + "'" + rest;
      BodyReads(text[1..], rest);
      assert EscapeBody(text) + "'" + rest == EscapeChar(text[0]) + tail;
      assert text == [text[0]] + text[1..];
      EscapedCharReads(text[0], tail);
    }
  }

  lemma EscapedCharReads(c: char, tail: string)
    ensures ReadBody(EscapeChar(c) + tail) == Prepend(c, ReadBody(tail))
  {
    var s := EscapeChar(c) + tail;
    if |EscapeChar(c)| == 2 {
      assert s[2..] == tail && s[0] == EscapeChar(c)[0] && s[1] == EscapeChar(c)[1];
    } else {
      assert s[1..] == tail && s[0] == c;
    }
  }

  lemma StringReads(text: string)
    ensures Parses("'" + EscapeBody(text) + "'", Str(text))
  {
    hide EscapeBody, ReadAtom, Delimited;
    forall rest | Delimited(rest) ensures ReadAtom("'" + EscapeBody(text) + "'" + rest) == Some((Str(text), rest)) {
      BodyReads(text, rest);
      QuoteReads(EscapeBody(text) + "'" + rest, text, rest);
      assert "'" + (EscapeBody(text) + "'" + rest) == "'" + EscapeBody(text) + "'" + rest;
    }
  }

  lemma QuoteReads(body: string, text: string, rest: string)
    requires ReadBody(body) == Some((text, rest))
    ensures ReadAtom("'" + body) == Some((Str(text), rest))
  {
    hide ReadBody, ReadNumber, ReadInfix, ReadWord, ReadColumn, WordRun, IsDigit;
    assert ("'" + body)[1..] == body;
  }

  lemma NumeralReads(n: nat, rest: string)
    requires rest == "" || !IsDigit(rest[0])
    ensures DigitRun(Numeral(n) + rest) == |Numeral(n)|
    ensures Value((Numeral(n) + rest)[..|Numeral(n)|]) == n && (Numeral(n) + rest)[|Numeral(n)|..] == rest
  {
    RunOfDigits(Numeral(n), rest);
    ValueOfNumeral(n);
    assert (Numeral(n) + rest)[..|Numeral(n)|] == Numeral(n);
  }

  lemma NegativeReads(n: nat, rest: string)
    requires Delimited(rest) && n > 0
    ensures ReadAtom("-" + Numeral(n) + rest) == Some((Int(0 - n), rest))
  {
    hide ReadAtom, Numeral;
    assert "-" + Numeral(n) + rest == "-" + (Numeral(n) + rest);
    IntClause("-" + Numeral(n) + rest);
    NumeralReads(n, rest);
    Cut("-", Numeral(n) + rest);
    NoPoint("-" + (Numeral(n) + rest), rest);
  }

  lemma NaturalReads(n: nat, rest: string)
    requires Delimited(rest)
    ensures ReadAtom(Numeral(n) + rest) == Some((Int(n), rest))
  {
    hide ReadAtom, Numeral;
    var s := Numeral(n) + rest;
    assert s[0] == Numeral(n)[0];
    IntClause(s);
    NumeralReads(n, rest);
    assert After("-", s) == None;
    NoPoint(s, rest);
  }

  lemma IntReads(n: int)
    ensures Parses(ToString(n), Int(n))
  {
    hide ReadAtom;
    forall rest | Delimited(rest) ensures ReadAtom(ToString(n) + rest) == Some((Int(n), rest)) {
      if n < 0 { NegativeReads(-n, rest); } else { NaturalReads(n, rest); }
    }
  }

  lemma IntClause(s: string)
    requires s != "" && (s[0] == '-' || IsDigit(s[0]))
    ensures ReadAtom(s) == ReadNumber(s)
  {}

  lemma NoPoint(s: string, rest: string)
    requires ReadInt(s).Some? && ReadInt(s).value.1 == rest && Delimited(rest)
    ensures ReadNumber(s) == ReadInt(s)
  {
    hide ReadInt;
  }

  lemma FloatReads(digits: string)
    requires IsDecimal(digits)
    ensures Parses(digits, Float(digits))
  {
    hide ReadAtom, IsFraction;
    forall rest | Delimited(rest) ensures ReadAtom(digits + rest) == Some((Float(digits), rest)) {
      if digits != "" && digits[0] == '-' {
        NegativeFloat(digits[1..], rest);
        assert digits == "-" + digits[1..];
      } else {
        PositiveFloat(digits, rest);
      }
    }
  }

  lemma NegativeFloat(s: string, rest: string)
    requires IsFraction(s) && Delimited(rest)
    ensures ReadAtom("-" + s + rest) == Some((Float("-" + s), rest))
  {
    hide ReadAtom, IsFraction, ReadNumber, DigitRun;
    FractionReads(s, rest);
    var all := "-" + s + rest;
    assert all == "-" + (s + rest);
    Cut("-", s + rest);
    IntClause(all);
    assert ReadInt(all).value.1 == (s + rest)[DigitRun(s + rest)..];
    WithPoint("-" + s, rest);
  }

  lemma PositiveFloat(s: string, rest: string)
    requires IsFraction(s) && Delimited(rest)
    ensures ReadAtom(s + rest) == Some((Float(s), rest))
  {
    hide ReadAtom, IsFraction, ReadNumber, DigitRun;
    FractionReads(s, rest);
    var all := s + rest;
    assert all[0] == s[0];
    assert After("-", all) == None;
    IntClause(all);
    WithPoint(s, rest);
  }

  /** The digits before the point, and those behind it. */
  lemma FractionReads(s: string, rest: string)
    requires IsFraction(s) && Delimited(rest)
    ensures s != "" && IsDigit(s[0])
    ensures var n := DigitRun(s + rest);
            && 0 < n < |s| && n == DigitRun(s)
            && var tail := (s + rest)[n..];
               |tail| > 1 && tail[0] == '.' && IsDigit(tail[1]) && DigitRun(tail[1..]) == |s| - n - 1
  {
    hide DigitRun;
    var n := DigitRun(s);
    var digits, fraction := s[..n], s[n + 1..];
    PartsOfFraction(s, n, rest);
    DigitsOfRun(s);
    DigitsOfRun(fraction);
    RunOfDigits(digits, "." + (fraction + rest));
    RunOfDigits(fraction, rest);
    assert (s + rest)[n..] == "." + (fraction + rest);
    assert ("." + (fraction + rest))[1..] == fraction + rest;
  }

  lemma PartsOfFraction(s: string, n: nat, rest: string)
    requires n < |s| && s[n] == '.'
    ensures s + rest == s[..n] + ("." + (s[n + 1..] + rest))
  {
    assert s == s[..n] + ("." + s[n + 1..]);
  }

  lemma DigitsOfRun(s: string)
    ensures DigitRun(s) <= |s| && forall i :: 0 <= i < DigitRun(s) ==> IsDigit(s[i])
    ensures DigitRun(s) > 0 ==> IsDigit(s[0])
  {}

  lemma WithPoint(digits: string, rest: string)
    requires ReadInt(digits + rest).Some?
    requires var tail := ReadInt(digits + rest).value.1;
             && |tail| > 1 && tail[0] == '.' && IsDigit(tail[1]) && |tail| == 1 + DigitRun(tail[1..]) + |rest|
             && tail == (digits + rest)[|digits + rest| - |tail|..]
    ensures ReadNumber(digits + rest) == Some((Float(digits), rest))
  {
    hide ReadInt, DigitRun;
    var s, tail := digits + rest, ReadInt(digits + rest).value.1;
    var m := 1 + DigitRun(tail[1..]);
    assert s[..|s| - |tail| + m] == digits;
    assert tail[m..] == s[|digits|..] == rest;
  }

  lemma PathTextStep(path: Path)
    requires path != []
    ensures PathText([path[0]]) == Numeral(path[0])
    ensures |path| > 1 ==> PathText(path) == Numeral(path[0]) + ("_" + PathText(path[1..]))
  {
    hide Numeral;
    assert Numerals(path) == [Numeral(path[0])] + Numerals(path[1..]);
    assert Numerals(path)[1..] == Numerals(path[1..]);
    assert Numerals([path[0]]) == [Numeral(path[0])];
  }

  /** A path reads back before anything that does not continue it. */
  lemma {:induction false} PathReads(path: Path, rest: string)
    requires Delimited(rest) || rest[0] == '.'
    ensures ReadPath(PathText(path) + rest) == (path, rest)
  {
    hide Numeral, PathText, ReadPath;
    if path == [] {
      NoPathReads(rest);
    } else {
      PathTextStep(path);
      if |path| == 1 {
        LastNumberReads(path[0], rest);
        assert path == [path[0]];
      } else {
        PathReads(path[1..], rest);
        assert PathText(path) + rest == Numeral(path[0]) + ("_" + (PathText(path[1..]) + rest));
        PathStartsWithDigit(path[1..]);
        NextNumberReads(path[0], PathText(path[1..]) + rest);
        assert path == [path[0]] + path[1..];
      }
    }
  }

  lemma NoPathText()
    ensures PathText([]) == ""
  {}

  lemma NoPathReads(rest: string)
    requires Delimited(rest) || rest[0] == '.'
    ensures ReadPath(PathText([]) + rest) == ([], rest)
  {
    NoPathText();
    hide Numeral, PathText;
    assert PathText([]) + rest == rest;
  }

  lemma LastNumberReads(n: nat, rest: string)
    requires Delimited(rest) || rest[0] == '.'
    ensures ReadPath(Numeral(n) + rest) == ([n], rest)
  {
    hide Numeral;
    NumeralReads(n, rest);
    assert |rest| > 0 ==> (Numeral(n) + rest)[|Numeral(n)|] == rest[0];
  }

  lemma NextNumberReads(n: nat, tail: string)
    requires tail != "" && IsDigit(tail[0])
    ensures ReadPath(Numeral(n) + ("_" + tail)) == ([n] + ReadPath(tail).0, ReadPath(tail).1)
  {
    var digits := Numeral(n);
    NumeralReads(n, "_" + tail);
    hide Numeral, DigitRun, Value, IsDigit, ReadPath;
    var s := digits + ("_" + tail);
    assert s[|digits|..] == "_" + tail;
    assert s[|digits| + 1..] == tail && s[|digits|] == '_' && s[|digits| + 1] == tail[0];
    PathContinues(s, |digits|);
  }

  /** Digits, an underscore and a digit: the path goes on. */
  lemma PathContinues(s: string, n: nat)
    requires n > 0 && DigitRun(s) == n && n + 1 < |s| && s[n] == '_' && IsDigit(s[n + 1])
    ensures ReadPath(s) == ([Value(s[..n])] + ReadPath(s[n + 1..]).0, ReadPath(s[n + 1..]).1)
  {
    hide DigitRun, Value, IsDigit;
  }

  lemma PathStartsWithDigit(path: Path)
    requires path != []
    ensures PathText(path) != "" && IsDigit(PathText(path)[0])
  {
    hide PathText;
    PathTextStep(path);
    if |path| == 1 { assert path == [path[0]]; }
  }

  lemma FieldReads(path: Path, key: KeyType, rest: string)
    requires Delimited(rest)
    ensures ReadField(FieldText(path, key) + rest) == Some((path, key, rest))
  {
    hide PathText, ReadPath;
    var tail := PathText(path) + rest;
    PathReads(path, rest);
    assert FieldText(path, key) + rest == KeyPrefix(key) + tail;
    match key
    case Simple => assert ("f_" + tail)[2..] == tail;
    case Primary => assert ("p_" + tail)[2..] == tail;
    case Index => assert ("i_" + tail)[2..] == tail;
  }

  /** A column name starts with a small letter, so it is read as a column. */
  lemma ColumnClause(s: string)
    requires s != "" && 'a' <= s[0] <= 'z'
    ensures ReadAtom(s) == ReadColumn(s)
  {}

  lemma BareColumnReads(path: Path, key: KeyType, rest: string)
    requires Delimited(rest)
    ensures ReadAtom(FieldText(path, key) + rest) == Some((Column([], path, key, false), rest))
  {
    hide PathText, ReadField;
    var s := FieldText(path, key) + rest;
    FieldReads(path, key, rest);
    assert s[0] == KeyPrefix(key)[0];
    assert After("t_", s) == None;
    hide ReadAtom;
    ColumnClause(s);
  }

  lemma TableColumnReads(table: Path, path: Path, key: KeyType, rest: string)
    requires Delimited(rest) && table != []
    ensures ReadAtom(ColumnText(table, path, key, false) + rest) == Some((Column(table, path, key, false), rest))
  {
    hide PathText, ReadField, ReadPath, FieldText, ReadAtom;
    var field := FieldText(path, key) + rest;
    var tail := PathText(table) + ("." + field);
    FieldReads(path, key, rest);
    assert ColumnText(table, path, key, false) + rest == "t_" + tail;
    Cut("t_", tail);
    PathReads(table, "." + field);
    Cut(".", field);
    ColumnClause("t_" + tail);
  }

  lemma ColumnReads(table: Path, path: Path, key: KeyType)
    ensures Parses(ColumnText(table, path, key, false), Column(table, path, key, false))
  {
    hide ReadAtom;
    forall rest | Delimited(rest)
      ensures ReadAtom(ColumnText(table, path, key, false) + rest) == Some((Column(table, path, key, false), rest))
    {
      if table == [] { BareColumnReads(path, key, rest); } else { TableColumnReads(table, path, key, rest); }
    }
  }

  // ---------------------------------------------------------------------------------- Words

  lemma {:induction false} WordReads(word: string, tail: string)
    requires forall i :: 0 <= i < |word| ==> IsWordChar(word[i])
    requires tail == "" || !IsWordChar(tail[0])
    ensures WordRun(word + tail) == |word|
  {
    if word == "" {
      assert word + tail == tail;
    } else {
      assert (word + tail)[1..] == word[1..] + tail;
      WordReads(word[1..], tail);
    }
  }

  /** A word of the printer other than NOT: none of these starts with an N. */
  predicate IsWord(word: string) {
    word != "" && 'A' <= word[0] <= 'Z' && word[0] != 'N' && forall i :: 0 <= i < |word| ==> IsWordChar(word[i])
  }

  /** A clause that starts with a capital letter is read as a word. */
  lemma WordClause(word: string, tail: string)
    requires IsWord(word)
    requires tail == "" || !IsWordChar(tail[0])
    ensures ReadAtom(word + tail) == ReadWord(word, tail)
  {
    WordReads(word, tail);
    var s := word + tail;
    assert s[0] == word[0] && s[..|word|] == word && s[|word|..] == tail;
  }

  lemma KeywordsRead()
    ensures Parses("TRUE", Bool(true)) && Parses("FALSE", Bool(false)) && Parses("DEFAULT", Default)
  {
    forall rest | Delimited(rest)
      ensures ReadAtom("TRUE" + rest) == Some((Bool(true), rest))
      ensures ReadAtom("FALSE" + rest) == Some((Bool(false), rest))
      ensures ReadAtom("DEFAULT" + rest) == Some((Default, rest))
    {
      WordClause("TRUE", rest);
      WordClause("FALSE", rest);
      WordClause("DEFAULT", rest);
    }
  }

  lemma AllReads()
    ensures Parses("*", All)
  {
    forall rest | Delimited(rest) ensures ReadAtom("*" + rest) == Some((All, rest)) {
      assert ("*" + rest)[1..] == rest;
    }
  }

  lemma ExcludedReads(path: Path, key: KeyType)
    ensures Parses(ColumnText([], path, key, true), Column([], path, key, true))
  {
    hide ReadAtom, PathText, ReadField;
    var text := ColumnText([], path, key, true);
    forall rest | Delimited(rest) ensures ReadAtom(text + rest) == Some((Column([], path, key, true), rest)) {
      FieldReads(path, key, rest);
      assert text + rest == "EXCLUDED" + ("." + (FieldText(path, key) + rest));
      WordClause("EXCLUDED", "." + (FieldText(path, key) + rest));
      Cut(".", FieldText(path, key) + rest);
    }
  }

  // ---------------------------------------------------------------------------------- Expressions

  lemma {:induction false} NextSpaceAt(word: string, tail: string)
    requires forall i :: 0 <= i < |word| ==> word[i] != ' '
    ensures NextSpace(word + " " + tail) == |word|
  {
    if word == "" {
      assert word + " " + tail == " " + tail;
    } else {
      assert (word + " " + tail)[1..] == word[1..] + " " + tail;
      NextSpaceAt(word[1..], tail);
    }
  }

  /** The sign between two operands, and the operator it names. */
  lemma SignReads(word: string, tail: string)
    requires word != "SIMILAR" && forall i :: 0 <= i < |word| ==> word[i] != ' '
    ensures SignRun(" " + word + " " + tail) == |word| + 2
    ensures (" " + word + " " + tail)[..|word| + 2] == " " + word + " "
    ensures (" " + word + " " + tail)[|word| + 2..] == tail
  {
    var s := " " + word + " " + tail;
    assert s[1..] == word + " " + tail;
    NextSpaceAt(word, tail);
    assert s[..|word| + 2] == " " + word + " ";
    assert (" " + word + " ")[1..|word| + 1] == word && " SIMILAR "[1..8] == "SIMILAR";
  }

  lemma SimilarReads(tail: string)
    ensures SignRun(" SIMILAR TO " + tail) == 12
  {
    var s := " SIMILAR TO " + tail;
    assert s[1..] == "SIMILAR" + " " + ("TO " + tail);
    NextSpaceAt("SIMILAR", "TO " + tail);
    assert s[..9] == " SIMILAR ";
  }

  /** The word of a sign: the sign without its surrounding spaces. */
  function SignWord(sign: string): string
    requires |sign| >= 2
  {
    sign[1..|sign| - 1]
  }

  lemma SignNamesOperator(op: ExprType)
    requires ShapeOf(op).Infix?
    ensures OperatorSigned(ShapeOf(op).sign) == op
  {
    hide OperatorSigned, ShapeOf, ArithmeticSign, ComparisonSign, LogicalSign;
    InfixSign(op);
    hide IsArithmetic, IsComparison, IsLogicalOrMatch;
    if IsArithmetic(op) { ArithmeticFound(op); }
    else if IsComparison(op) { ComparisonFound(op); }
    else { LogicalFound(op); }
  }

  lemma ArithmeticFound(op: ExprType)
    requires IsArithmetic(op)
    ensures OperatorSigned(ArithmeticSign(op)) == op && (op != SimilarTo ==> SpacedWord(ArithmeticSign(op)))
  {
    hide OperatorSigned, SpacedWord;
    ShortSigns();
    SpacedWords();
  }

  lemma ComparisonFound(op: ExprType)
    requires IsComparison(op)
    ensures OperatorSigned(ComparisonSign(op)) == op && (op != SimilarTo ==> SpacedWord(ComparisonSign(op)))
  {
    hide OperatorSigned, SpacedWord;
    ComparisonSigns();
    LongSigns();
    SpacedWords();
  }

  lemma LogicalFound(op: ExprType)
    requires IsLogicalOrMatch(op)
    ensures OperatorSigned(LogicalSign(op)) == op && (op != SimilarTo ==> SpacedWord(LogicalSign(op)))
  {
    hide OperatorSigned, SpacedWord;
    ComparisonSigns();
    LongSigns();
    SpacedWords();
  }

  lemma InfixSign(op: ExprType)
    requires ShapeOf(op).Infix?
    ensures ShapeOf(op).sign == SignOf(op) && IsBinary(op)
  {
    hide SignOf, NameOf, LeastOf, MostOf, HasName, IsBinary;
  }

  lemma ShortSigns()
    ensures OperatorSigned(" + ") == Add && OperatorSigned(" - ") == Subtract && OperatorSigned(" * ") == Multiply
    ensures OperatorSigned(" / ") == Divide && OperatorSigned(" % ") == Modulo
  {}

  lemma ComparisonSigns()
    ensures OperatorSigned(" = ") == Equals && OperatorSigned(" > ") == GreaterThan
    ensures OperatorSigned(" < ") == LessThan && OperatorSigned(" ~ ") == RegexpMatch
  {}

  lemma LongSigns()
    ensures OperatorSigned(" <> ") == NotEquals && OperatorSigned(" >= ") == GreaterThanOrEquals
    ensures OperatorSigned(" <= ") == LessThanOrEquals && OperatorSigned(" AND ") == And
    ensures OperatorSigned(" OR ") == Or && OperatorSigned(" LIKE ") == Like
    ensures OperatorSigned(" ILIKE ") == ILike && OperatorSigned(" SIMILAR TO ") == SimilarTo
  {}

  lemma OperatorReads(op: ExprType, tail: string)
    requires ShapeOf(op).Infix?
    ensures var sign := ShapeOf(op).sign;
            && Delimited(sign + tail) && SignRun(sign + tail) == |sign|
            && (sign + tail)[..|sign|] == sign && (sign + tail)[|sign|..] == tail && OperatorSigned(sign) == op
  {
    hide SignRun, NextSpace;
    var sign := ShapeOf(op).sign;
    assert (sign + tail)[..|sign|] == sign && (sign + tail)[|sign|..] == tail;
    SignNamesOperator(op);
    hide OperatorSigned;
    if op == SimilarTo {
      SimilarReads(tail);
    } else {
      SignsAreWords(op);
      assert sign + tail == " " + SignWord(sign) + " " + tail;
      SignReads(SignWord(sign), tail);
    }
  }

  lemma SignIsPlain(op: ExprType)
    requires ShapeOf(op).Infix?
    ensures EndsPlainly(ShapeOf(op).sign)
  {
    hide EndsPlainly, ShapeOf, ArithmeticSign, ComparisonSign, LogicalSign, IsArithmetic, IsComparison,
      IsLogicalOrMatch;
    InfixSign(op);
    if IsArithmetic(op) { PlainArithmetic(op); }
    else if IsComparison(op) { PlainComparison(op); }
    else { PlainLogical(op); }
  }

  lemma PlainArithmetic(op: ExprType)
    ensures EndsPlainly(ArithmeticSign(op))
  {}

  lemma PlainComparison(op: ExprType)
    ensures EndsPlainly(ComparisonSign(op))
  {}

  lemma PlainLogical(op: ExprType)
    ensures EndsPlainly(LogicalSign(op))
  {}

  predicate SpacedWord(sign: string) {
    && |sign| >= 3 && sign == " " + SignWord(sign) + " " && SignWord(sign) != "SIMILAR"
    && forall i :: 0 <= i < |SignWord(sign)| ==> SignWord(sign)[i] != ' '
  }

  lemma SignsAreWords(op: ExprType)
    requires ShapeOf(op).Infix? && op != SimilarTo
    ensures SpacedWord(ShapeOf(op).sign)
  {
    hide SpacedWord, ShapeOf, ArithmeticSign, ComparisonSign, LogicalSign, IsArithmetic, IsComparison, IsLogicalOrMatch;
    InfixSign(op);
    if IsArithmetic(op) { ArithmeticFound(op); }
    else if IsComparison(op) { ComparisonFound(op); }
    else { LogicalFound(op); }
  }

  lemma SpacedWords()
    ensures SpacedWord(" + ") && SpacedWord(" - ") && SpacedWord(" * ")
    ensures SpacedWord(" / ") && SpacedWord(" % ") && SpacedWord(" = ")
    ensures SpacedWord(" > ") && SpacedWord(" < ") && SpacedWord(" ~ ")
    ensures SpacedWord(" <> ") && SpacedWord(" >= ") && SpacedWord(" <= ")
    ensures SpacedWord(" AND ") && SpacedWord(" OR ") && SpacedWord(" LIKE ")
    ensures SpacedWord(" ILIKE ")
  {}

  /** What ends a clause: a delimiter that starts no suffix. */
  predicate Ends(rest: string) { Delimited(rest) && ReadSuffix(rest) == None }

  /** The start of a suffix is told by its first letters. */
  predicate EndsPlainly(text: string) {
    && text != "" && Delimited(text)
    && (text[0] == ' ' ==>
         |text| >= 3 && text[1] != 'N' && (text[1] == 'I' ==> text[2] != 'S' && text[2] != 'N'))
  }

  lemma ParenEnds()
    ensures EndsPlainly(")")
  {}

  lemma CommaEnds()
    ensures EndsPlainly(", ")
  {}

  lemma AndEnds()
    ensures EndsPlainly(" AND ")
  {}

  lemma BetweenEnds()
    ensures EndsPlainly(" BETWEEN ")
  {}

  lemma FromEnds()
    ensures EndsPlainly(" FROM ")
  {}

  lemma ForEnds()
    ensures EndsPlainly(" FOR ")
  {}

  lemma ThenEnds()
    ensures EndsPlainly(" THEN ")
  {}

  lemma EndEnds()
    ensures EndsPlainly(" END")
  {}

  lemma PlainEnds(text: string, rest: string)
    requires EndsPlainly(text)
    ensures Ends(text + rest)
  {
    hide ReadList;
    var s := text + rest;
    assert s[0] == text[0] && (|text| >= 3 ==> s[1] == text[1] && s[2] == text[2]);
    assert After(" IS NULL", s) == None && After(" IS NOT NULL", s) == None;
    assert After(" IN (", s) == None && After(" NOT IN (", s) == None;
  }

  lemma ReadsAt(text: string, c: Clause, rest: string)
    requires Reads(text, c) && Ends(rest)
    ensures ReadClause(text + rest) == Some((c, rest))
  {
    hide ReadClause, ReadSuffix;
    assert ReadSuffixes(rest) == ([], rest);
  }

  /** A clause followed by a text that ends it. */
  lemma ThenReads(text: string, c: Clause, suffix: string, rest: string)
    requires Reads(text, c) && EndsPlainly(suffix)
    ensures ReadThen(text + (suffix + rest), suffix) == Some((c, rest))
  {
    hide ReadClause, Ends;
    PlainEnds(suffix, rest);
    ReadsAt(text, c, suffix + rest);
    Cut(suffix, rest);
  }

  lemma ParenClause(s: string)
    ensures ReadAtom("(" + s) == ReadInfix(s)
  {
    assert ("(" + s)[1..] == s;
  }

  lemma InfixReads(op: ExprType, left: string, right: string, cl: Clause, cr: Clause)
    requires ShapeOf(op).Infix? && Reads(left, cl) && Reads(right, cr)
    ensures Parses("(" + left + ShapeOf(op).sign + right + ")", Expression(op, [cl, cr]))
  {
    hide ReadAtom, ReadClause, OperatorSigned, SignRun, ReadThen, ShapeOf, Ends, EndsPlainly, Reads;
    ParenEnds();
    var sign := ShapeOf(op).sign;
    var text := "(" + left + sign + right + ")";
    forall rest | Delimited(rest) ensures ReadAtom(text + rest) == Some((Expression(op, [cl, cr]), rest)) {
      var tail := right + (")" + rest);
      assert text + rest == "(" + (left + (sign + tail));
      ParenClause(left + (sign + tail));
      OperatorReads(op, tail);
      SignIsPlain(op);
      PlainEnds(sign, tail);
      ReadsAt(left, cl, sign + tail);
      ThenReads(right, cr, ")", rest);
      InfixIsNotOther(op);
    }
  }

  lemma InfixIsNotOther(op: ExprType)
    requires ShapeOf(op).Infix?
    ensures op != UnknownType && op != BetweenType
  {}

  lemma BetweenSign(tail: string)
    ensures SignRun(" BETWEEN " + tail) == 9
    ensures (" BETWEEN " + tail)[..9] == " BETWEEN " && (" BETWEEN " + tail)[9..] == tail
    ensures OperatorSigned(" BETWEEN ") == BetweenType
  {
    hide SignRun;
    assert " BETWEEN " + tail == " " + "BETWEEN" + " " + tail;
    SignReads("BETWEEN", tail);
  }

  lemma BetweenReads(x: string, low: string, high: string, cx: Clause, cl: Clause, ch: Clause)
    requires Reads(x, cx) && Reads(low, cl) && Reads(high, ch)
    ensures Parses("(" + x + " BETWEEN " + low + " AND " + high + ")", Expression(BetweenType, [cx, cl, ch]))
  {
    hide ReadAtom, ReadClause, SignRun, ReadThen, OperatorSigned, Ends, EndsPlainly, Reads;
    BetweenEnds();
    AndEnds();
    ParenEnds();
    var text := "(" + x + " BETWEEN " + low + " AND " + high + ")";
    forall rest | Delimited(rest) ensures ReadAtom(text + rest) == Some((Expression(BetweenType, [cx, cl, ch]), rest)) {
      var end := high + (")" + rest);
      var tail := low + (" AND " + end);
      assert text + rest == "(" + (x + (" BETWEEN " + tail));
      ParenClause(x + (" BETWEEN " + tail));
      BetweenSign(tail);
      PlainEnds(" BETWEEN ", tail);
      ReadsAt(x, cx, " BETWEEN " + tail);
      ThenReads(low, cl, " AND ", end);
      ThenReads(high, ch, ")", rest);
    }
  }

  /** Arguments up to the closing parenthesis. */
  lemma {:induction false} ArgumentsRead(texts: seq<string>, cs: seq<Clause>, rest: string)
    requires |texts| == |cs| > 0 && forall i :: 0 <= i < |cs| ==> Reads(texts[i], cs[i])
    ensures ReadArguments(JoinTexts(texts, ", ") + (")" + rest)) == Some((cs, rest))
  {
    hide ReadClause, Ends, EndsPlainly, Reads;
    ParenEnds();
    CommaEnds();
    if |texts| == 1 {
      PlainEnds(")", rest);
      ReadsAt(texts[0], cs[0], ")" + rest);
      Cut(")", rest);
      assert cs == [cs[0]];
    } else {
      var tail := JoinTexts(texts[1..], ", ") + (")" + rest);
      ArgumentsRead(texts[1..], cs[1..], rest);
      assert JoinTexts(texts, ", ") + (")" + rest) == texts[0] + (", " + tail);
      PlainEnds(", ", tail);
      ReadsAt(texts[0], cs[0], ", " + tail);
      Cut(", ", tail);
      assert cs == [cs[0]] + cs[1..];
    }
  }

  /** A name that ReadWord and ReadCall treat as an ordinary function. */
  predicate PlainName(name: string) {
    && IsWord(name)
    && name != "TRUE" && name != "FALSE" && name != "DEFAULT" && name != "EXCLUDED" && name != "CASE"
      && name != "EXISTS"
  }

  /** Reading NAME( hands the rest to ReadCall. */
  lemma CallClause(name: string, s: string)
    requires PlainName(name)
    ensures ReadAtom(name + ("(" + s)) == ReadCall(name, s)
  {
    hide ReadAtom, ReadCall;
    WordClause(name, "(" + s);
    Cut("(", s);
  }

  /** A function name that is none of the words ReadWord and ReadCall treat specially. */
  predicate Names(name: string, op: ExprType) {
    && PlainName(name) && op != UnknownType && (name == "RANDOM" <==> op == Random)
    && name != "SUBSTRING" && name != "POSITION" && name != "LN" && name != "LOG"
  }

  /** Every function name names its function. */
  lemma NamesAreRead(op: ExprType)
    requires ShapeOf(op).Call? && op != Exponent
    ensures Names(ShapeOf(op).name, op) && FunctionNamed(ShapeOf(op).name) == op
  {
    hide FunctionNamed, IsWord, IsWordChar, ShapeOf, HasName, NameOf, LeastOf, MostOf;
    NameFindsFunction(op);
    CallIsKnown(op);
    NamedIsKnown(op);
    NoFunctionHasSpecialName();
    FunctionNamesAreWords(ShapeOf(op).name);
    OnlyRandom(ShapeOf(op).name);
  }

  lemma CallIsKnown(op: ExprType)
    requires ShapeOf(op).Call?
    ensures op != Exponent ==> HasName(op) && ShapeOf(op) == Call(NameOf(op), LeastOf(op), MostOf(op))
  {
    hide NameOf, LeastOf, MostOf, SignOf, IsBinary, HasName;
  }

  lemma NamedIsKnown(op: ExprType)
    requires HasName(op)
    ensures op != UnknownType
  {}

  lemma NameFindsFunction(op: ExprType)
    requires ShapeOf(op).Call? && op != Exponent
    ensures FunctionNamed(ShapeOf(op).name) == op
  {
    hide FunctionNamed, ShapeOf, AggregateName, MathName, StringName, ConditionalName, IsAggregate, IsMath,
      IsStringFunction;
    CallIsKnown(op);
    if IsAggregate(op) { AggregateFound(op); }
    else if IsMath(op) { MathFound(op); }
    else if IsStringFunction(op) { StringFunctionFound(op); }
    else { ConditionalFound(op); }
  }

  lemma ConditionalFound(op: ExprType)
    requires IsConditional(op)
    ensures FunctionNamed(ConditionalName(op)) == op
  {
    hide FunctionNamed;
    FiveMoreLetters();
    MoreLetters();
  }

  lemma AggregateFound(op: ExprType)
    requires IsAggregate(op)
    ensures FunctionNamed(AggregateName(op)) == op
  {
    hide FunctionNamed;
    ThreeLetters();
    FiveLetters();
    MoreLetters();
  }

  lemma MathFound(op: ExprType)
    requires IsMath(op)
    ensures FunctionNamed(MathName(op)) == op
  {
    hide FunctionNamed;
    ThreeMoreLetters();
    FourLetters();
    FiveLetters();
    SixLetters();
  }

  lemma StringFunctionFound(op: ExprType)
    requires IsStringFunction(op)
    ensures FunctionNamed(StringName(op)) == op
  {
    hide FunctionNamed;
    FourLetters();
    FiveMoreLetters();
    SixLetters();
    MoreLetters();
  }

  lemma ThreeLetters()
    ensures FunctionNamed("SUM") == Sum && FunctionNamed("AVG") == Avg && FunctionNamed("MIN") == Min
    ensures FunctionNamed("MAX") == Max
  {}

  lemma ThreeMoreLetters()
    ensures FunctionNamed("ABS") == Abs && FunctionNamed("SIN") == Sin && FunctionNamed("COS") == Cos
    ensures FunctionNamed("TAN") == Tan
  {}

  lemma FourLetters()
    ensures FunctionNamed("CEIL") == Ceil && FunctionNamed("SQRT") == Sqrt && FunctionNamed("TRIM") == Trim
    ensures FunctionNamed("LEFT") == LeftType
  {}

  lemma FiveLetters()
    ensures FunctionNamed("POWER") == Power && FunctionNamed("COUNT") == CountType && FunctionNamed("ROUND") == Round
    ensures FunctionNamed("FLOOR") == Floor
  {}

  lemma FiveMoreLetters()
    ensures FunctionNamed("LOWER") == Lower && FunctionNamed("UPPER") == Upper && FunctionNamed("RIGHT") == RightType
    ensures FunctionNamed("LEAST") == Least
  {}

  lemma SixLetters()
    ensures FunctionNamed("RANDOM") == Random && FunctionNamed("CONCAT") == Concat && FunctionNamed("LENGTH") == Length
  {}

  lemma MoreLetters()
    ensures FunctionNamed("ARRAY_AGG") == ArrayAgg && FunctionNamed("STRING_AGG") == StringAgg
    ensures FunctionNamed("JSON_AGG") == JsonAgg
    ensures FunctionNamed("REPLACE") == Replace && FunctionNamed("SPLIT_PART") == SplitPart
    ensures FunctionNamed("COALESCE") == Coalesce
    ensures FunctionNamed("GREATEST") == Greatest
  {}

  /** The words the reader treats specially are no function names. */
  lemma NoFunctionHasSpecialName()
    ensures FunctionNamed("LN") == UnknownType && FunctionNamed("LOG") == UnknownType
    ensures FunctionNamed("TRUE") == UnknownType && FunctionNamed("CASE") == UnknownType
    ensures FunctionNamed("FALSE") == UnknownType && FunctionNamed("EXISTS") == UnknownType
    ensures FunctionNamed("DEFAULT") == UnknownType && FunctionNamed("EXCLUDED") == UnknownType
    ensures FunctionNamed("POSITION") == UnknownType && FunctionNamed("SUBSTRING") == UnknownType
  {
    hide FunctionNamed;
    ShortSpecialNames();
    MiddleSpecialNames();
    LongSpecialNames();
  }

  lemma ShortSpecialNames()
    ensures FunctionNamed("LN") == UnknownType && FunctionNamed("LOG") == UnknownType
    ensures FunctionNamed("TRUE") == UnknownType && FunctionNamed("CASE") == UnknownType
  {}

  lemma MiddleSpecialNames()
    ensures FunctionNamed("FALSE") == UnknownType && FunctionNamed("EXISTS") == UnknownType
  {}

  lemma LongSpecialNames()
    ensures FunctionNamed("DEFAULT") == UnknownType && FunctionNamed("EXCLUDED") == UnknownType
    ensures FunctionNamed("POSITION") == UnknownType && FunctionNamed("SUBSTRING") == UnknownType
  {}

  lemma OnlyRandom(name: string)
    ensures name == "RANDOM" <==> FunctionNamed(name) == Random
  {}

  /** Function names are words. */
  lemma FunctionNamesAreWords(name: string)
    requires FunctionNamed(name) != UnknownType
    ensures IsWord(name)
  {
    hide FunctionNamed, IsWord;
    if |name| <= 3 { ShortWords(name); }
    else if |name| == 5 { FiveLetterWords(name); }
    else if |name| <= 6 { MiddleWords(name); }
    else { LongWords(name); }
  }

  lemma ShortWords(name: string)
    requires FunctionNamed(name) != UnknownType && |name| <= 3
    ensures IsWord(name)
  {}

  lemma MiddleWords(name: string)
    requires FunctionNamed(name) != UnknownType && (|name| == 4 || |name| == 6)
    ensures IsWord(name)
  {}

  lemma FiveLetterWords(name: string)
    requires FunctionNamed(name) != UnknownType && |name| == 5
    ensures IsWord(name)
  {}

  lemma LongWords(name: string)
    requires FunctionNamed(name) != UnknownType && |name| > 6
    ensures IsWord(name)
  {}

  lemma NoTexts(separator: string)
    ensures JoinTexts([], separator) == ""
  {}

  lemma CallReads(op: ExprType, texts: seq<string>, cs: seq<Clause>)
    requires ShapeOf(op).Call? && op != Exponent && ArityOk(ShapeOf(op), |cs|)
    requires |texts| == |cs| && forall i :: 0 <= i < |cs| ==> Reads(texts[i], cs[i])
    ensures Parses(ShapeOf(op).name + "(" + JoinTexts(texts, ", ") + ")", Expression(op, cs))
  {
    hide ReadAtom, ReadCall, JoinTexts, ShapeOf, FunctionNamed, Names;
    var name := ShapeOf(op).name;
    var text := name + "(" + JoinTexts(texts, ", ") + ")";
    NamesAreRead(op);
    ArityOfCall(op, |cs|);
    forall rest | Delimited(rest) ensures ReadAtom(text + rest) == Some((Expression(op, cs), rest)) {
      var body := JoinTexts(texts, ", ") + (")" + rest);
      assert text + rest == name + ("(" + body);
      NamesArePlain(name, op);
      CallClause(name, body);
      if cs == [] {
        NoTexts(", ");
        assert texts == [] && body == ")" + rest;
        EmptyCallReads(name, op, rest);
      } else {
        ArgumentsRead(texts, cs, rest);
        FullCallReads(name, op, body, cs, rest);
      }
    }
  }

  lemma NamesArePlain(name: string, op: ExprType)
    requires Names(name, op)
    ensures PlainName(name)
  {}

  lemma EmptyCallReads(name: string, op: ExprType, rest: string)
    requires Names(name, op) && op == Random
    ensures ReadCall(name, ")" + rest) == Some((Expression(op, []), rest))
  {
    Cut(")", rest);
  }

  lemma FullCallReads(name: string, op: ExprType, body: string, cs: seq<Clause>, rest: string)
    requires Names(name, op) && op != Random && FunctionNamed(name) == op && ReadArguments(body) == Some((cs, rest))
    ensures ReadCall(name, body) == Some((Expression(op, cs), rest))
  {
    hide FunctionNamed, ReadArguments, PlainName;
  }

  lemma ArityOfCall(op: ExprType, n: nat)
    requires ShapeOf(op).Call? && ArityOk(ShapeOf(op), n)
    ensures op == Random <==> n == 0
  {
    hide NameOf, LeastOf, MostOf, HasName;
    CallIsKnown(op);
    OnlyRandomIsNullary(op);
  }

  lemma OnlyRandomIsNullary(op: ExprType)
    ensures op == Random <==> LeastOf(op) == 0
    ensures MostOf(Random) == Some(0)
  {}

  lemma LnReads(x: string, cx: Clause)
    requires Reads(x, cx)
    ensures Parses("LN(" + x + ")", Expression(LogType, [cx]))
  {
    hide ReadAtom, ReadArguments, FunctionNamed;
    forall rest | Delimited(rest) ensures ReadAtom("LN(" + x + ")" + rest) == Some((Expression(LogType, [cx]), rest)) {
      var body := JoinTexts([x], ", ") + (")" + rest);
      assert "LN(" + x + ")" + rest == "LN" + ("(" + body);
      CallClause("LN", body);
      ArgumentsRead([x], [cx], rest);
    }
  }

  lemma LogReads(base: string, x: string, cb: Clause, cx: Clause)
    requires Reads(base, cb) && Reads(x, cx)
    ensures Parses("LOG(" + base + ", " + x + ")", Expression(LogType, [cx, cb]))
  {
    hide ReadAtom, ReadArguments, FunctionNamed, ReadCall, Reads;
    var text := "LOG(" + base + ", " + x + ")";
    forall rest | Delimited(rest) ensures ReadAtom(text + rest) == Some((Expression(LogType, [cx, cb]), rest)) {
      var body := base + (", " + (x + (")" + rest)));
      assert text + rest == "LOG" + ("(" + body);
      CallClause("LOG", body);
      TwoTexts(base, x, ")" + rest);
      ArgumentsRead([base, x], [cb, cx], rest);
      LogCall(body, cb, cx, rest);
    }
  }

  lemma TwoTexts(a: string, b: string, rest: string)
    ensures JoinTexts([a, b], ", ") + rest == a + (", " + (b + rest))
  {
    assert [a, b][1..] == [b];
  }

  lemma LogCall(body: string, cb: Clause, cx: Clause, rest: string)
    requires ReadArguments(body) == Some(([cb, cx], rest))
    ensures ReadCall("LOG", body) == Some((Expression(LogType, [cx, cb]), rest))
  {
    hide ReadArguments, FunctionNamed;
  }

  /** A text that opens with a parenthesis is no list of an IN: its first clause is followed by an operator. */
  ghost predicate Opens(text: string) {
    text != "" && (text[0] == '(' ==> forall rest :: ReadArguments(text[1..] + rest) == None)
  }

  /** The IN of POSITION is no suffix of its first operand. */
  lemma InEnds(whole: string, rest: string)
    requires Opens(whole)
    ensures Ends(" IN " + (whole + rest))
  {
    hide ReadArguments;
    if whole[0] == '(' {
      var inner := whole[1..] + rest;
      var s := " IN (" + inner;
      assert " IN " + (whole + rest) == s;
      assert ReadArguments(inner) == None;
      InIsNoOther(s);
      Cut(" IN (", inner);
      assert ReadList(InType, inner) == None;
      assert s[0] == ' ';
      assert ReadSuffix(s) == None;
    } else {
      var s := " IN " + (whole + rest);
      InIsNoOther(s);
      assert s[4] == whole[0];
      assert After(" IN (", s) == None;
    }
  }

  lemma InIsNoOther(s: string)
    requires " IN " <= s
    ensures After(" IS NULL", s) == None && After(" IS NOT NULL", s) == None && After(" NOT IN (", s) == None
  {
    assert s[1] == 'I' && s[2] == 'N';
  }

  lemma PositionReads(part: string, whole: string, cp: Clause, cw: Clause)
    requires Reads(part, cp) && Reads(whole, cw) && Opens(whole)
    ensures Parses("POSITION(" + part + " IN " + whole + ")", Expression(PositionType, [cp, cw]))
  {
    hide ReadAtom, ReadClause, ReadArguments, FunctionNamed, ReadThen, Ends, EndsPlainly, Reads, Opens;
    ParenEnds();
    var text := "POSITION(" + part + " IN " + whole + ")";
    forall rest | Delimited(rest) ensures ReadAtom(text + rest) == Some((Expression(PositionType, [cp, cw]), rest)) {
      var end := whole + (")" + rest);
      assert text + rest == "POSITION" + ("(" + (part + (" IN " + end)));
      CallClause("POSITION", part + (" IN " + end));
      InEnds(whole, ")" + rest);
      ReadsAt(part, cp, " IN " + end);
      Cut(" IN ", end);
      FirstOfPosition(part, cp, end);
      ThenReads(whole, cw, ")", rest);
    }
  }

  lemma FirstOfPosition(part: string, cp: Clause, end: string)
    requires ReadClause(part + (" IN " + end)) == Some((cp, " IN " + end)) && After(" IN ", " IN " + end) == Some(end)
    ensures ReadThen(part + (" IN " + end), " IN ") == Some((cp, end))
  {
    hide ReadClause;
  }

  lemma SubstringReads2(text: string, start: string, ct: Clause, cs: Clause)
    requires Reads(text, ct) && Reads(start, cs)
    ensures Parses("SUBSTRING(" + text + " FROM " + start + ")", Expression(SubstringType, [ct, cs]))
  {
    hide ReadAtom, ReadClause, ReadThen, Ends, EndsPlainly, Reads;
    FromEnds();
    ParenEnds();
    var all := "SUBSTRING(" + text + " FROM " + start + ")";
    forall rest | Delimited(rest) ensures ReadAtom(all + rest) == Some((Expression(SubstringType, [ct, cs]), rest)) {
      var end := start + (")" + rest);
      assert all + rest == "SUBSTRING" + ("(" + (text + (" FROM " + end)));
      CallClause("SUBSTRING", text + (" FROM " + end));
      ThenReads(text, ct, " FROM ", end);
      PlainEnds(")", rest);
      ReadsAt(start, cs, ")" + rest);
      Cut(")", rest);
    }
  }

  lemma SubstringReads3(text: string, start: string, count: string, ct: Clause, cs: Clause, cc: Clause)
    requires Reads(text, ct) && Reads(start, cs) && Reads(count, cc)
    ensures Parses("SUBSTRING(" + text + " FROM " + start + " FOR " + count + ")",
      Expression(SubstringType, [ct, cs, cc]))
  {
    hide ReadAtom, ReadClause, ReadThen, Ends, EndsPlainly, Reads;
    FromEnds();
    ForEnds();
    ParenEnds();
    var all := "SUBSTRING(" + text + " FROM " + start + " FOR " + count + ")";
    forall rest | Delimited(rest)
      ensures ReadAtom(all + rest) == Some((Expression(SubstringType, [ct, cs, cc]), rest))
    {
      var last := count + (")" + rest);
      var end := start + (" FOR " + last);
      assert all + rest == "SUBSTRING" + ("(" + (text + (" FROM " + end)));
      CallClause("SUBSTRING", text + (" FROM " + end));
      ThenReads(text, ct, " FROM ", end);
      PlainEnds(" FOR ", last);
      ReadsAt(start, cs, " FOR " + last);
      assert After(")", " FOR " + last) == None;
      Cut(" FOR ", last);
      ThenReads(count, cc, ")", rest);
    }
  }

  lemma ExistsReads(x: string, cx: Clause)
    requires Reads(x, cx)
    ensures Parses("EXISTS (" + x + ")", Expression(ExistsType, [cx]))
  {
    hide ReadAtom, ReadClause, ReadThen, Ends, EndsPlainly, Reads;
    ParenEnds();
    forall rest | Delimited(rest)
      ensures ReadAtom("EXISTS (" + x + ")" + rest) == Some((Expression(ExistsType, [cx]), rest))
    {
      var body := x + (")" + rest);
      assert "EXISTS (" + x + ")" + rest == "EXISTS" + (" (" + body);
      WordClause("EXISTS", " (" + body);
      Cut(" (", body);
      ThenReads(x, cx, ")", rest);
    }
  }

  lemma ElseReads(text: string, c: Clause, rest: string)
    requires Reads(text, c)
    ensures ReadCases(" ELSE " + (text + (" END" + rest))) == Some(([c], rest))
  {
    hide ReadAtom, ReadClause, ReadThen, Ends, EndsPlainly, Reads;
    EndEnds();
    var body := text + (" END" + rest);
    assert After(" WHEN ", " ELSE " + body) == None;
    Cut(" ELSE ", body);
    ThenReads(text, c, " END", rest);
  }

  lemma WhenReads(when: string, cw: Clause, result: string, cr: Clause, tail: string, more: seq<Clause>, rest: string)
    requires Reads(when, cw) && Reads(result, cr) && Ends(tail) && ReadCases(tail) == Some((more, rest))
    ensures ReadCases(" WHEN " + (when + (" THEN " + (result + tail)))) == Some(([cw, cr] + more, rest))
  {
    hide ReadAtom, ReadClause, ReadThen, Ends, EndsPlainly, Reads;
    ThenEnds();
    Cut(" WHEN ", when + (" THEN " + (result + tail)));
    ThenReads(when, cw, " THEN ", result + tail);
    ReadsAt(result, cr, tail);
  }

  lemma TailEnds(texts: seq<string>, rest: string)
    requires |texts| % 2 == 1
    ensures CaseTail(texts) != "" && CaseTail(texts)[0] == ' ' && Ends(CaseTail(texts) + rest)
  {
    hide Ends, CaseTail, EndsPlainly;
    if |texts| == 1 {
      ElseTail(texts);
      ElseStarts();
      StartsWith(" ELSE ", texts[0] + " END");
    } else {
      var more := texts[0] + (" THEN " + (texts[1] + CaseTail(texts[2..])));
      WhenTail(texts);
      WhenStarts();
      StartsWith(" WHEN ", more);
    }
    PlainEnds(CaseTail(texts), rest);
  }

  lemma ElseTail(texts: seq<string>)
    requires |texts| == 1
    ensures CaseTail(texts) == " ELSE " + (texts[0] + " END")
  {}

  lemma ElseStarts()
    ensures EndsPlainly(" ELSE ") && " ELSE "[0] == ' '
  {}

  lemma WhenStarts()
    ensures EndsPlainly(" WHEN ") && " WHEN "[0] == ' '
  {}

  lemma StartsWith(prefix: string, more: string)
    requires EndsPlainly(prefix) && prefix[0] == ' '
    ensures EndsPlainly(prefix + more) && (prefix + more)[0] == ' '
  {
    var s := prefix + more;
    assert s[0] == prefix[0] && (|prefix| >= 3 ==> s[1] == prefix[1] && s[2] == prefix[2]);
  }

  lemma WhenTail(texts: seq<string>)
    requires |texts| % 2 == 1 && |texts| > 1
    ensures CaseTail(texts) == " WHEN " + (texts[0] + (" THEN " + (texts[1] + CaseTail(texts[2..]))))
  {
    var tail := CaseTail(texts[2..]);
    assert " WHEN " + texts[0] + " THEN " + texts[1] + tail == " WHEN " + (texts[0] + (" THEN " + (texts[1] + tail)));
  }

  lemma {:induction false} CasesRead(texts: seq<string>, cs: seq<Clause>, rest: string)
    requires |texts| == |cs| && |cs| % 2 == 1 && forall i :: 0 <= i < |cs| ==> Reads(texts[i], cs[i])
    ensures ReadCases(CaseTail(texts) + rest) == Some((cs, rest))
  {
    hide ReadCases, Reads, Ends;
    if |texts| == 1 {
      assert CaseTail(texts) + rest == " ELSE " + (texts[0] + (" END" + rest));
      ElseReads(texts[0], cs[0], rest);
      assert cs == [cs[0]];
    } else {
      var tail := CaseTail(texts[2..]) + rest;
      CasesRead(texts[2..], cs[2..], rest);
      assert CaseTail(texts) + rest == " WHEN " + (texts[0] + (" THEN " + (texts[1] + tail)));
      TailEnds(texts[2..], rest);
      WhenReads(texts[0], cs[0], texts[1], cs[1], tail, cs[2..], rest);
      assert cs == [cs[0], cs[1]] + cs[2..];
    }
  }

  lemma CaseReads(texts: seq<string>, cs: seq<Clause>)
    requires |texts| == |cs| && |cs| % 2 == 1 && forall i :: 0 <= i < |cs| ==> Reads(texts[i], cs[i])
    ensures Parses("CASE" + CaseTail(texts), Expression(CaseType, cs))
  {
    hide ReadAtom, ReadCases, CaseTail, Reads, Ends;
    forall rest | Delimited(rest)
      ensures ReadAtom("CASE" + CaseTail(texts) + rest) == Some((Expression(CaseType, cs), rest))
    {
      var tail := CaseTail(texts) + rest;
      assert "CASE" + CaseTail(texts) + rest == "CASE" + tail;
      TailEnds(texts, rest);
      WordClause("CASE", tail);
      CasesRead(texts, cs, rest);
    }
  }

  /** The operators with a layout of their own. */
  lemma OwnLayout(op: ExprType)
    ensures ShapeOf(op) == BetweenForm ==> op == BetweenType
    ensures ShapeOf(op) == SubstringForm ==> op == SubstringType
    ensures ShapeOf(op) == PositionForm ==> op == PositionType
    ensures ShapeOf(op) == ExistsForm ==> op == ExistsType
    ensures ShapeOf(op) == LogForm ==> op == LogType
    ensures ShapeOf(op) == CaseForm ==> op == CaseType
  {
    hide NameOf, SignOf, LeastOf, MostOf, HasName, IsBinary;
  }

  lemma ExponentIsPower()
    ensures ShapeOf(Exponent) == ShapeOf(Power) && ShapeOf(Power).Call?
  {
    hide SignOf, AggregateName, StringName, ConditionalName;
  }

  lemma SubstringReads(texts: seq<string>, cs: seq<Clause>)
    requires |texts| == |cs| && (|cs| == 2 || |cs| == 3) && forall i :: 0 <= i < |cs| ==> Reads(texts[i], cs[i])
    ensures Parses(Layout(SubstringForm, texts), Expression(SubstringType, cs))
  {
    hide Reads, Parses, Parses;
    if |cs| == 2 {
      SubstringReads2(texts[0], texts[1], cs[0], cs[1]);
      assert cs == [cs[0], cs[1]];
      assert Layout(SubstringForm, texts) == "SUBSTRING(" + texts[0] + " FROM " + texts[1] + ")";
    } else {
      SubstringReads3(texts[0], texts[1], texts[2], cs[0], cs[1], cs[2]);
      assert cs == [cs[0], cs[1], cs[2]];
      assert Layout(SubstringForm, texts) == "SUBSTRING(" + texts[0] + " FROM " + texts[1] + " FOR " + texts[2] + ")";
    }
  }

  lemma LogarithmReads(texts: seq<string>, cs: seq<Clause>)
    requires |texts| == |cs| && (|cs| == 1 || |cs| == 2) && forall i :: 0 <= i < |cs| ==> Reads(texts[i], cs[i])
    ensures Parses(Layout(LogForm, texts), Expression(LogType, cs))
  {
    hide Reads, Parses, Parses;
    if |cs| == 1 {
      LnReads(texts[0], cs[0]);
      assert cs == [cs[0]];
    } else {
      LogReads(texts[1], texts[0], cs[1], cs[0]);
      assert cs == [cs[0], cs[1]];
    }
  }

  lemma PairReads(shape: Shape, op: ExprType, texts: seq<string>, cs: seq<Clause>)
    requires shape.Infix? || shape.PositionForm?
    requires ShapeOf(op) == shape && |texts| == |cs| == 2 && Reads(texts[0], cs[0]) && Reads(texts[1], cs[1])
    requires Opens(texts[1])
    ensures Parses(Layout(shape, texts), Expression(op, cs))
  {
    hide Reads, Parses, ShapeOf, Opens;
    OwnLayout(op);
    assert cs == [cs[0], cs[1]];
    if shape.Infix? {
      InfixReads(op, texts[0], texts[1], cs[0], cs[1]);
    } else {
      PositionReads(texts[0], texts[1], cs[0], cs[1]);
    }
  }

  /** An expression with delimiters of its own reads back from its layout when its operands do. */
  lemma LayoutReads(op: ExprType, texts: seq<string>, cs: seq<Clause>)
    requires Delimits(ShapeOf(op)) && ArityOk(ShapeOf(op), |cs|)
    requires |texts| == |cs| && forall i :: 0 <= i < |cs| ==> Reads(texts[i], cs[i]) && Opens(texts[i])
    ensures Parses(Layout(ShapeOf(op), texts), Expression(if op == Exponent then Power else op, cs))
  {
    hide Reads, Parses, Opens, JoinTexts, CaseTail, ShapeOf;
    OwnLayout(op);
    ExponentIsPower();
    match ShapeOf(op)
    case Infix(_) => PairReads(ShapeOf(op), op, texts, cs);
    case PositionForm => PairReads(ShapeOf(op), op, texts, cs);
    case Call(_, _, _) => CallReads(if op == Exponent then Power else op, texts, cs);
    case BetweenForm =>
      BetweenReads(texts[0], texts[1], texts[2], cs[0], cs[1], cs[2]);
      assert cs == [cs[0], cs[1], cs[2]];
    case SubstringForm => SubstringReads(texts, cs);
    case ExistsForm =>
      ExistsReads(texts[0], cs[0]);
      assert cs == [cs[0]];
    case LogForm => LogarithmReads(texts, cs);
    case CaseForm => CaseReads(texts, cs);
  }

  // ---------------------------------------------------------------------------------- How texts start

  /** No form but NOT starts with an N, and what opens with a parenthesis is no list. */
  ghost predicate Starts(text: string) { text != "" && text[0] != 'N' && Opens(text) }

  /** An operand followed by an operator is no list of operands. */
  lemma NoListAt(text: string, c: Clause, sign: string, rest: string)
    requires Reads(text, c) && EndsPlainly(sign) && sign[0] == ' '
    ensures ReadArguments(text + (sign + rest)) == None
  {
    hide ReadClause, Ends, Reads;
    PlainEnds(sign, rest);
    ReadsAt(text, c, sign + rest);
    assert (sign + rest)[0] == ' ';
    assert After(")", sign + rest) == None && After(", ", sign + rest) == None;
  }

  lemma ParenStarts(text: string, c: Clause, sign: string, more: string)
    requires Reads(text, c) && EndsPlainly(sign) && sign[0] == ' '
    ensures Starts("(" + text + sign + more)
  {
    hide Reads, EndsPlainly, ReadArguments;
    var all := "(" + text + sign + more;
    forall rest ensures ReadArguments(all[1..] + rest) == None {
      assert all[1..] + rest == text + (sign + (more + rest));
      NoListAt(text, c, sign, more + rest);
    }
  }

  lemma WordStarts(word: string, more: string)
    requires IsWord(word)
    ensures Starts(word + more)
  {
    assert (word + more)[0] == word[0];
  }

  lemma LayoutStarts(op: ExprType, texts: seq<string>, cs: seq<Clause>)
    requires Delimits(ShapeOf(op)) && ArityOk(ShapeOf(op), |cs|)
    requires |texts| == |cs| && forall i :: 0 <= i < |cs| ==> Reads(texts[i], cs[i])
    ensures Starts(Layout(ShapeOf(op), texts))
  {
    hide Reads, Starts, JoinTexts, CaseTail, ShapeOf, IsWord, EndsPlainly;
    match ShapeOf(op)
    case Infix(sign) =>
      SignIsPlain(op);
      SignStartsWithSpace(op);
      assert Layout(ShapeOf(op), texts) == "(" + texts[0] + sign + (texts[1] + ")");
      ParenStarts(texts[0], cs[0], sign, texts[1] + ")");
    case BetweenForm => BetweenStarts(texts, cs[0]);
    case Call(name, _, _) => CallStarts(op, texts);
    case _ => SpecialStarts(ShapeOf(op), texts);
  }

  lemma SignStartsWithSpace(op: ExprType)
    requires ShapeOf(op).Infix?
    ensures ShapeOf(op).sign != "" && ShapeOf(op).sign[0] == ' '
  {
    hide IsArithmetic, IsComparison, IsLogicalOrMatch, IsBinary, ShapeOf, ArithmeticSign, ComparisonSign, LogicalSign;
    InfixSign(op);
    ArithmeticSpace(op);
    ComparisonSpace(op);
    LogicalSpace(op);
  }

  lemma ArithmeticSpace(op: ExprType)
    ensures ArithmeticSign(op) != "" && ArithmeticSign(op)[0] == ' '
  {}

  lemma ComparisonSpace(op: ExprType)
    ensures ComparisonSign(op) != "" && ComparisonSign(op)[0] == ' '
  {}

  lemma LogicalSpace(op: ExprType)
    ensures LogicalSign(op) != "" && LogicalSign(op)[0] == ' '
  {}

  lemma BetweenStarts(texts: seq<string>, c: Clause)
    requires |texts| == 3 && Reads(texts[0], c)
    ensures Starts(Layout(BetweenForm, texts))
  {
    hide Reads, Starts, EndsPlainly;
    BetweenEnds();
    assert Layout(BetweenForm, texts) == "(" + texts[0] + " BETWEEN " + (texts[1] + " AND " + texts[2] + ")");
    ParenStarts(texts[0], c, " BETWEEN ", texts[1] + " AND " + texts[2] + ")");
  }

  lemma CallStarts(op: ExprType, texts: seq<string>)
    requires ShapeOf(op).Call? && ArityOk(ShapeOf(op), |texts|)
    ensures Starts(Layout(ShapeOf(op), texts))
  {
    hide Starts, ShapeOf, FunctionNamed, JoinTexts, IsWord;
    ExponentIsPower();
    var known := if op == Exponent then Power else op;
    NamesAreRead(known);
    var name := ShapeOf(op).name;
    assert Layout(ShapeOf(op), texts) == name + ("(" + JoinTexts(texts, ", ") + ")");
    WordStarts(name, "(" + JoinTexts(texts, ", ") + ")");
  }

  lemma SpecialStarts(shape: Shape, texts: seq<string>)
    requires ArityOk(shape, |texts|)
    requires shape.SubstringForm? || shape.PositionForm? || shape.ExistsForm? || shape.LogForm? || shape.CaseForm?
    ensures Starts(Layout(shape, texts))
  {
    var text := Layout(shape, texts);
    assert text != "" && (text[0] == 'S' || text[0] == 'P' || text[0] == 'E' || text[0] == 'L' || text[0] == 'C');
  }

  /** A form that parses and starts well reads back, with whatever suffixes follow. */
  lemma FormReads(text: string, c: Clause)
    requires Parses(text, c) && Starts(text)
    ensures Reads(text, c) && Opens(text)
  {
    hide ReadAtom, ReadSuffixes, Opens;
    forall rest | Delimited(rest)
      ensures ReadClause(text + rest) == Some((SuffixedAll(c, ReadSuffixes(rest).0), ReadSuffixes(rest).1))
    {
      assert (text + rest)[0] == text[0];
      assert After("NOT ", text + rest) == None;
      assert ReadAtom(text + rest) == Some((c, rest));
    }
  }

  // ---------------------------------------------------------------------------------- NOT and suffixes

  lemma {:induction false} NotOutermost(c: Clause, suffixes: seq<Suffix>)
    ensures SuffixedAll(Expression(Not, [c]), suffixes) == Expression(Not, [SuffixedAll(c, suffixes)])
    decreases |suffixes|
  {
    if suffixes != [] {
      assert Suffixed(Expression(Not, [c]), suffixes[0]) == Expression(Not, [Suffixed(c, suffixes[0])]);
      NotOutermost(Suffixed(c, suffixes[0]), suffixes[1..]);
    }
  }

  lemma NotReads(text: string, c: Clause)
    requires Reads(text, c)
    ensures Reads("NOT " + text, Expression(Not, [c])) && Opens("NOT " + text)
  {
    hide ReadSuffixes, SuffixedAll, ReadArguments;
    forall rest | Delimited(rest)
      ensures ReadClause("NOT " + text + rest) ==
              Some((SuffixedAll(Expression(Not, [c]), ReadSuffixes(rest).0), ReadSuffixes(rest).1))
    {
      assert "NOT " + text + rest == "NOT " + (text + rest);
      Cut("NOT ", text + rest);
      NotOutermost(c, ReadSuffixes(rest).0);
      NotThen(text + rest);
    }
  }

  lemma NotThen(s: string)
    requires ReadClause(s).Some?
    ensures ReadClause("NOT " + s) == Some((Expression(Not, [ReadClause(s).value.0]), ReadClause(s).value.1))
  {
    Cut("NOT ", s);
  }

  /** The text of a suffix. */
  function SuffixText(op: ExprType, texts: seq<string>): string
    requires IsSuffix(op)
  {
    if op == IsNull then " IS NULL"
    else if op == IsNotNull then " IS NOT NULL"
    else (if op == InType then " IN (" else " NOT IN (") + JoinTexts(texts, ", ") + ")"
  }

  lemma SuffixLayout(op: ExprType, texts: seq<string>)
    requires IsSuffix(op) && ArityOk(ShapeOf(op), |texts|)
    ensures texts != [] && Layout(ShapeOf(op), texts) == texts[0] + SuffixText(op, texts[1..])
    ensures ((op == IsNull || op == IsNotNull) ==> |texts| == 1) && (op == InType || op == NotInType ==> |texts| >= 2)
  {
    SuffixShapes();
    hide JoinTexts, ShapeOf;
    if op == InType { ListLayout(" IN (", texts); }
    if op == NotInType { ListLayout(" NOT IN (", texts); }
  }

  lemma ListLayout(keyword: string, texts: seq<string>)
    requires |texts| >= 2
    ensures Layout(InForm(keyword), texts) == texts[0] + (keyword + JoinTexts(texts[1..], ", ") + ")")
  {
    hide JoinTexts;
  }

  lemma SuffixShapes()
    ensures ShapeOf(IsNull) == Postfix(" IS NULL") && ShapeOf(IsNotNull) == Postfix(" IS NOT NULL")
    ensures ShapeOf(InType) == InForm(" IN (") && ShapeOf(NotInType) == InForm(" NOT IN (")
  {
    NoSuffixIsBinary();
    NoSuffixHasName();
    hide IsBinary, HasName, NameOf, SignOf, LeastOf, MostOf;
  }

  lemma NoSuffixIsBinary()
    ensures !IsBinary(IsNull) && !IsBinary(IsNotNull) && !IsBinary(InType) && !IsBinary(NotInType)
  {}

  lemma NoSuffixHasName()
    ensures !HasName(IsNull) && !HasName(IsNotNull) && !HasName(InType) && !HasName(NotInType)
  {}

  lemma SuffixIsRead(op: ExprType, texts: seq<string>, list: seq<Clause>, rest: string)
    requires IsSuffix(op) && |texts| == |list| && forall i :: 0 <= i < |list| ==> Reads(texts[i], list[i])
    requires list == [] <==> op == IsNull || op == IsNotNull
    ensures ReadSuffix(SuffixText(op, texts) + rest) == Some((Suffix(op, list), rest))
    ensures Delimited(SuffixText(op, texts) + rest)
  {
    hide Reads, ReadArguments, JoinTexts, ReadSuffix;
    if op == IsNull {
      NullIsRead(rest);
    } else if op == IsNotNull {
      NotNullIsRead(rest);
    } else {
      ListIsRead(op, texts, list, rest);
    }
  }

  lemma ListIsRead(op: ExprType, texts: seq<string>, list: seq<Clause>, rest: string)
    requires op == InType || op == NotInType
    requires list != [] && |texts| == |list| && forall i :: 0 <= i < |list| ==> Reads(texts[i], list[i])
    ensures ReadSuffix(SuffixText(op, texts) + rest) == Some((Suffix(op, list), rest))
    ensures Delimited(SuffixText(op, texts) + rest)
  {
    hide Reads, ReadArguments, JoinTexts, ReadSuffix;
    var body := JoinTexts(texts, ", ") + (")" + rest);
    ArgumentsRead(texts, list, rest);
    if op == InType {
      assert SuffixText(op, texts) + rest == " IN (" + body;
      InListIsRead(body);
    } else {
      assert SuffixText(op, texts) + rest == " NOT IN (" + body;
      NotInListIsRead(body);
    }
  }

  lemma NullIsRead(rest: string)
    ensures ReadSuffix(" IS NULL" + rest) == Some((Suffix(IsNull, []), rest)) && Delimited(" IS NULL" + rest)
  {
    Cut(" IS NULL", rest);
  }

  lemma NotNullIsRead(rest: string)
    ensures ReadSuffix(" IS NOT NULL" + rest) == Some((Suffix(IsNotNull, []), rest)) && Delimited(" IS NOT NULL" + rest)
  {
    Cut(" IS NOT NULL", rest);
    NotNullIsNot(rest);
  }

  lemma NotNullIsNot(rest: string)
    ensures After(" IS NULL", " IS NOT NULL" + rest) == None
  {
    assert (" IS NOT NULL" + rest)[5] == 'O';
  }

  lemma InListIsRead(body: string)
    ensures ReadSuffix(" IN (" + body) == ReadList(InType, body) && Delimited(" IN (" + body)
  {
    hide ReadList;
    var s := " IN (" + body;
    assert s[0] == ' ' && s[2] == 'N';
    Cut(" IN (", body);
    assert After(" IS NULL", s) == None && After(" IS NOT NULL", s) == None;
  }

  lemma NotInListIsRead(body: string)
    ensures ReadSuffix(" NOT IN (" + body) == ReadList(NotInType, body) && Delimited(" NOT IN (" + body)
  {
    hide ReadList;
    var s := " NOT IN (" + body;
    assert s[0] == ' ' && s[1] == 'N';
    Cut(" NOT IN (", body);
    assert After(" IS NULL", s) == None && After(" IS NOT NULL", s) == None && After(" IN (", s) == None;
  }

  /** A clause with a suffix reads back when the clause does. */
  lemma SuffixReads(op: ExprType, texts: seq<string>, cs: seq<Clause>)
    requires IsSuffix(op) && ArityOk(ShapeOf(op), |cs|)
    requires |texts| == |cs| && forall i :: 0 <= i < |cs| ==> Reads(texts[i], cs[i]) && Opens(texts[i])
    ensures cs != [] && Reads(Layout(ShapeOf(op), texts), Suffixed(cs[0], Suffix(op, cs[1..])))
    ensures Opens(Layout(ShapeOf(op), texts))
  {
    hide Suffixed, Opens, Reads, ShapeOf, Layout, SuffixText;
    SuffixLayout(op, texts);
    var tail, suffix := SuffixText(op, texts[1..]), Suffix(op, cs[1..]);
    StillOpens(texts[0], tail);
    forall rest | Delimited(rest) ensures ReadSuffix(tail + rest) == Some((suffix, rest)) && Delimited(tail + rest) {
      SuffixIsRead(op, texts[1..], cs[1..], rest);
    }
    WithSuffixReads(texts[0], cs[0], tail, suffix);
  }

  lemma WithSuffixReads(head: string, c: Clause, tail: string, suffix: Suffix)
    requires Reads(head, c)
    requires forall rest :: Delimited(rest) ==>
      ReadSuffix(tail + rest) == Some((suffix, rest)) && Delimited(tail + rest)
    ensures Reads(head + tail, Suffixed(c, suffix))
  {
    hide Suffixed, ReadClause, ReadSuffix, SuffixedAll;
    forall rest | Delimited(rest)
      ensures ReadClause(head + tail + rest) ==
              Some((SuffixedAll(Suffixed(c, suffix), ReadSuffixes(rest).0), ReadSuffixes(rest).1))
    {
      assert head + tail + rest == head + (tail + rest);
      NextSuffix(tail + rest, suffix, rest);
      FirstSuffix(c, suffix, ReadSuffixes(rest).0);
    }
  }

  lemma StillOpens(head: string, tail: string)
    requires Opens(head)
    ensures Opens(head + tail)
  {
    hide ReadArguments;
    var text := head + tail;
    forall rest | text[0] == '(' ensures ReadArguments(text[1..] + rest) == None {
      assert text[1..] + rest == head[1..] + (tail + rest);
    }
  }

  lemma NextSuffix(s: string, suffix: Suffix, rest: string)
    requires ReadSuffix(s) == Some((suffix, rest))
    ensures ReadSuffixes(s) == ([suffix] + ReadSuffixes(rest).0, ReadSuffixes(rest).1)
  {
    hide ReadSuffix;
  }

  lemma FirstSuffix(c: Clause, suffix: Suffix, more: seq<Suffix>)
    ensures SuffixedAll(c, [suffix] + more) == SuffixedAll(Suffixed(c, suffix), more)
  {
    assert ([suffix] + more)[1..] == more;
  }

  // ---------------------------------------------------------------------------------- Main results

  lemma LeafReads(tables: map<Path, Path>, c: Clause, parent: Option<ClauseKind>)
    requires Readable(c) && !c.Expression?
    ensures Text(tables, c, parent).Ok?
    ensures Parses(Text(tables, c, parent).value, Canonical(c)) && Starts(Text(tables, c, parent).value)
  {
    hide Parses, Starts, EscapeBody, ToString;
    match c
    case Str(text) =>
      StringReads(text);
      LeafStarts("'" + EscapeBody(text) + "'");
    case Int(number) =>
      IntReads(number);
      NumberStarts(number);
    case Float(digits) =>
      FloatReads(digits);
      DecimalStarts(digits);
    case Bool(_) =>
      KeywordsRead();
      KeywordsStart();
    case All =>
      AllReads();
      LeafStarts("*");
    case Default =>
      KeywordsRead();
      KeywordsStart();
    case Column(table, path, key, excluded) =>
      if excluded { ExcludedReads(path, key); } else { ColumnReads(table, path, key); }
      ColumnStarts(table, path, key, excluded);
  }

  lemma LeafStarts(text: string)
    requires text != "" && text[0] != 'N' && text[0] != '('
    ensures Starts(text)
  {}

  lemma NumberStarts(n: int)
    ensures Starts(ToString(n))
  {
    hide Starts, Numeral;
    LeafStarts(ToString(n));
  }

  lemma DecimalStarts(digits: string)
    requires IsDecimal(digits)
    ensures Starts(digits)
  {
    hide Starts;
    LeafStarts(digits);
  }

  lemma KeywordsStart()
    ensures Starts("TRUE") && Starts("FALSE") && Starts("DEFAULT")
  {
    hide Starts;
    LeafStarts("TRUE");
    LeafStarts("FALSE");
    LeafStarts("DEFAULT");
  }

  lemma ColumnStarts(table: Path, path: Path, key: KeyType, excluded: bool)
    ensures Starts(ColumnText(table, path, key, excluded))
  {
    hide Starts, PathText;
    var text := ColumnText(table, path, key, excluded);
    assert KeyPrefix(key) != "" && KeyPrefix(key)[0] != 'N' && KeyPrefix(key)[0] != '(';
    LeafStarts(text);
  }

  lemma {:induction false} ReadableText(tables: map<Path, Path>, c: Clause, parent: Option<ClauseKind>)
    requires Readable(c)
    ensures Text(tables, c, parent).Ok?
    ensures Reads(Text(tables, c, parent).value, Canonical(c)) && Opens(Text(tables, c, parent).value)
    decreases c, 0
  {
    hide Reads, Parses, Starts, Opens, Layout, ShapeOf;
    if c.Expression? {
      ReadableTexts(tables, c.operands);
      ExpressionReads(c.op, Texts(tables, c.operands, ExpressionKind).value, CanonicalAll(c.operands));
    } else {
      LeafReads(tables, c, parent);
      FormReads(Text(tables, c, parent).value, Canonical(c));
    }
  }

  lemma ExpressionReads(op: ExprType, texts: seq<string>, cs: seq<Clause>)
    requires ArityOk(ShapeOf(op), |cs|)
    requires |texts| == |cs| && forall i :: 0 <= i < |cs| ==> Reads(texts[i], cs[i]) && Opens(texts[i])
    ensures Reads(Layout(ShapeOf(op), texts),
                  if IsSuffix(op) && cs != [] then Suffixed(cs[0], Suffix(op, cs[1..]))
                  else Expression(if op == Exponent then Power else op, cs))
    ensures Opens(Layout(ShapeOf(op), texts))
  {
    hide Reads, Parses, Starts, Opens, ShapeOf, Suffixed, JoinTexts, CaseTail;
    ShapesOfRest(op);
    if IsSuffix(op) {
      SuffixReads(op, texts, cs);
    } else if op == Not {
      NotReads(texts[0], cs[0]);
      assert cs == [cs[0]];
    } else {
      LayoutReads(op, texts, cs);
      LayoutStarts(op, texts, cs);
      FormReads(Layout(ShapeOf(op), texts), Expression(if op == Exponent then Power else op, cs));
    }
  }

  lemma ShapesOfRest(op: ExprType)
    ensures ShapeOf(Not) == NotForm
    ensures Delimits(ShapeOf(op)) || ShapeOf(op) == NoShape || IsSuffix(op) || op == Not
  {
    NotHasNoName();
    hide IsBinary, HasName, NameOf, SignOf, LeastOf, MostOf;
  }

  lemma NotHasNoName()
    ensures !IsBinary(Not) && !HasName(Not)
  {}

  lemma {:induction false} ReadableTexts(tables: map<Path, Path>, cs: seq<Clause>)
    requires forall i :: 0 <= i < |cs| ==> Readable(cs[i])
    ensures var r := Texts(tables, cs, ExpressionKind);
            r.Ok? && forall i :: 0 <= i < |cs| ==> Reads(r.value[i], CanonicalAll(cs)[i]) && Opens(r.value[i])
    decreases cs, 1
  {
    hide Reads, Opens, Text, Canonical;
    if cs != [] {
      ReadableText(tables, cs[0], Some(ExpressionKind));
      ReadableTexts(tables, cs[1..]);
    }
  }

  /** Reading the printed text recovers the tree, whatever follows it that ends a clause and starts no suffix. */
  lemma ReadsBack(tables: map<Path, Path>, c: Clause, parent: Option<ClauseKind>, rest: string)
    requires Readable(c) && Ends(rest)
    ensures Text(tables, c, parent).Ok?
    ensures ReadClause(Text(tables, c, parent).value + rest) == Some((Canonical(c), rest))
  {
    hide Text, ReadClause, Ends, Canonical, Readable;
    ReadableText(tables, c, parent);
    ReadsAt(Text(tables, c, parent).value, Canonical(c), rest);
  }

  lemma NothingEnds()
    ensures Ends("")
  {
    assert After(" IS NULL", "") == None && After(" IS NOT NULL", "") == None;
    assert After(" IN (", "") == None && After(" NOT IN (", "") == None;
  }

  /** Hoisting the NOTs of a clause over a suffix does not change its text. */
  lemma {:induction false} SuffixedText(tables: map<Path, Path>, x: Clause, suffix: Suffix, parent: Option<ClauseKind>)
    requires IsSuffix(suffix.op) && ArityOk(ShapeOf(suffix.op), 1 + |suffix.list|)
    requires Text(tables, x, Some(ExpressionKind)).Ok? && Texts(tables, suffix.list, ExpressionKind).Ok?
    ensures Text(tables, Suffixed(x, suffix), parent) ==
            Ok(Text(tables, x, Some(ExpressionKind)).value +
              SuffixText(suffix.op, Texts(tables, suffix.list, ExpressionKind).value))
    decreases x
  {
    hide ShapeOf, Layout, SuffixText, ArityOk;
    var tail := SuffixText(suffix.op, Texts(tables, suffix.list, ExpressionKind).value);
    if x.Expression? && x.op == Not && |x.operands| == 1 {
      var y := x.operands[0];
      assert x.operands == [y];
      NotText(tables, y, Some(ExpressionKind));
      SuffixedText(tables, y, suffix, Some(ExpressionKind));
      NotText(tables, Suffixed(y, suffix), parent);
      var t := Text(tables, y, Some(ExpressionKind)).value;
      assert "NOT " + (t + tail) == ("NOT " + t) + tail;
    } else {
      PlainSuffixText(tables, x, suffix, parent);
    }
  }

  lemma NextTexts(tables: map<Path, Path>, x: Clause, list: seq<Clause>)
    requires Text(tables, x, Some(ExpressionKind)).Ok? && Texts(tables, list, ExpressionKind).Ok?
    ensures Texts(tables, [x] + list, ExpressionKind) ==
            Ok([Text(tables, x, Some(ExpressionKind)).value] + Texts(tables, list, ExpressionKind).value)
  {
    hide Text;
    assert ([x] + list)[1..] == list;
  }

  lemma NotText(tables: map<Path, Path>, y: Clause, parent: Option<ClauseKind>)
    ensures Text(tables, Expression(Not, [y]), parent).Ok? <==> Text(tables, y, Some(ExpressionKind)).Ok?
    ensures Text(tables, y, Some(ExpressionKind)).Ok? ==>
      Text(tables, Expression(Not, [y]), parent) == Ok("NOT " + Text(tables, y, Some(ExpressionKind)).value)
  {
    hide ShapeOf;
    ShapesOfRest(Not);
    NoMoreTexts(tables);
    assert [y][1..] == [];
  }

  lemma NoMoreTexts(tables: map<Path, Path>)
    ensures Texts(tables, [], ExpressionKind) == Ok([])
  {}

  /** The canonical tree of a readable one has the same text. */
  lemma {:induction false} CanonicalText(tables: map<Path, Path>, c: Clause, parent: Option<ClauseKind>)
    requires Readable(c)
    ensures Text(tables, Canonical(c), parent) == Text(tables, c, parent)
    decreases c, 0
  {
    hide Layout, ShapeOf, EscapeBody, Suffixed, SuffixText;
    if c.Expression? {
      var all := CanonicalAll(c.operands);
      CanonicalTexts(tables, c.operands);
      ReadableTexts(tables, c.operands);
      var texts := Texts(tables, c.operands, ExpressionKind).value;
      ExponentIsPower();
      ArityOfSuffix(c.op);
      if IsSuffix(c.op) {
        assert all == [all[0]] + all[1..];
        SplitTexts(tables, all);
        SuffixedText(tables, all[0], Suffix(c.op, all[1..]), parent);
        SuffixLayout(c.op, texts);
      }
    }
  }

  lemma ArityOfSuffix(op: ExprType)
    ensures IsSuffix(op) ==> !ArityOk(ShapeOf(op), 0)
  {
    SuffixShapes();
    hide ShapeOf;
  }

  lemma SplitTexts(tables: map<Path, Path>, cs: seq<Clause>)
    requires cs != [] && Texts(tables, cs, ExpressionKind).Ok?
    ensures Text(tables, cs[0], Some(ExpressionKind)) == Ok(Texts(tables, cs, ExpressionKind).value[0])
    ensures Texts(tables, cs[1..], ExpressionKind) == Ok(Texts(tables, cs, ExpressionKind).value[1..])
  {
    hide Text;
  }

  lemma {:induction false} CanonicalTexts(tables: map<Path, Path>, cs: seq<Clause>)
    requires forall i :: 0 <= i < |cs| ==> Readable(cs[i])
    ensures Texts(tables, CanonicalAll(cs), ExpressionKind) == Texts(tables, cs, ExpressionKind)
    decreases cs, 1
  {
    hide Text, Canonical;
    if cs != [] {
      CanonicalText(tables, cs[0], Some(ExpressionKind));
      CanonicalTexts(tables, cs[1..]);
      assert CanonicalAll(cs)[1..] == CanonicalAll(cs[1..]);
    }
  }

  // ---------------------------------------------------------------------------------- Operand counts

  /** How many operands an expression type takes. */
  predicate Takes(op: ExprType, n: nat) {
    match op
    case UnknownType => false
    case Random => n == 0
    case Not => n == 1
    case IsNull => n == 1
    case IsNotNull => n == 1
    case ExistsType => n == 1
    case Round => n == 1 || n == 2
    case LogType => n == 1 || n == 2
    case SubstringType => n == 2 || n == 3
    case BetweenType => n == 3
    case Replace => n == 3
    case SplitPart => n == 3
    case InType => n >= 2
    case NotInType => n >= 2
    case Concat => n >= 2
    case Coalesce => n >= 1
    case Greatest => n >= 1
    case Least => n >= 1
    case CaseType => n >= 3 && n % 2 == 1
    case _ => if TakesOne(op) then n == 1 else n == 2
  }

  /** Aggregates and functions of one operand. */
  predicate TakesOne(op: ExprType) {
    || op == CountType || op == Sum || op == Avg || op == Min || op == Max || op == ArrayAgg || op == JsonAgg
    || op == Abs || op == Ceil || op == Floor || op == Sqrt || op == Sin || op == Cos || op == Tan
    || op == Lower || op == Upper || op == Length || op == Trim
  }

  lemma TakesExactly(op: ExprType, n: nat)
    ensures ArityOk(ShapeOf(op), n) <==> Takes(op, n)
  {
    hide NameOf, SignOf;
    if IsBinary(op) {
      BinaryTakesTwo(op);
    } else if HasName(op) {
      NamedTakes(op, n);
    } else {
      OtherTakes(op, n);
    }
  }

  lemma BinaryTakesTwo(op: ExprType)
    requires IsBinary(op)
    ensures forall n: nat :: Takes(op, n) <==> n == 2
  {
    hide IsBinary;
    if IsArithmetic(op) { ArithmeticTakesTwo(op); }
    else if IsComparison(op) { ComparisonTakesTwo(op); }
    else { LogicalTakesTwo(op); }
  }

  lemma ArithmeticTakesTwo(op: ExprType)
    requires IsArithmetic(op)
    ensures forall n: nat :: Takes(op, n) <==> n == 2
  {}

  lemma ComparisonTakesTwo(op: ExprType)
    requires IsComparison(op)
    ensures forall n: nat :: Takes(op, n) <==> n == 2
  {}

  lemma LogicalTakesTwo(op: ExprType)
    requires IsBinary(op) && !IsArithmetic(op) && !IsComparison(op)
    ensures forall n: nat :: Takes(op, n) <==> n == 2
  {}

  predicate TakesBetween(op: ExprType, n: nat) { n >= LeastOf(op) && (MostOf(op).Some? ==> n <= MostOf(op).value) }

  lemma NamedTakes(op: ExprType, n: nat)
    requires HasName(op) && !IsBinary(op)
    ensures ArityOk(ShapeOf(op), n) <==> Takes(op, n)
  {
    hide NameOf, SignOf, LeastOf, MostOf, IsBinary, HasName;
    hide IsAggregate, IsMath, IsStringFunction, IsConditional, Takes;
    assert ArityOk(ShapeOf(op), n) <==> TakesBetween(op, n);
    NamedKinds(op);
    if IsAggregate(op) { AggregateTakes(op, n); }
    else if IsMath(op) { MathTakes(op, n); }
    else if IsStringFunction(op) { StringTakes(op, n); }
    else { ConditionalTakes(op, n); }
  }

  lemma NamedKinds(op: ExprType)
    requires HasName(op)
    ensures IsAggregate(op) || IsMath(op) || IsStringFunction(op) || IsConditional(op)
  {
    hide IsAggregate, IsMath, IsStringFunction, IsConditional;
  }

  lemma OneTakes(op: ExprType, n: nat)
    requires TakesOne(op)
    ensures TakesBetween(op, n) <==> n == 1
  {}

  lemma TakesOnlyOne(op: ExprType, n: nat)
    requires TakesOne(op)
    ensures Takes(op, n) <==> n == 1
  {}

  lemma AggregateTakes(op: ExprType, n: nat)
    requires IsAggregate(op)
    ensures TakesBetween(op, n) <==> Takes(op, n)
  {
    hide TakesBetween, Takes;
    if TakesOne(op) {
      OneTakes(op, n);
      TakesOnlyOne(op, n);
    } else {
      TwoTake(op, n);
    }
  }

  lemma TwoTake(op: ExprType, n: nat)
    requires op == StringAgg || op == Power || op == LeftType || op == RightType
    ensures TakesBetween(op, n) <==> Takes(op, n)
  {}

  lemma MathTakes(op: ExprType, n: nat)
    requires IsMath(op)
    ensures TakesBetween(op, n) <==> Takes(op, n)
  {
    hide TakesBetween, Takes;
    if TakesOne(op) {
      OneTakes(op, n);
      TakesOnlyOne(op, n);
    } else if op == Power {
      TwoTake(op, n);
    } else {
      RestTakes(op, n);
    }
  }

  lemma RestTakes(op: ExprType, n: nat)
    requires op == Random || op == Round || op == Concat || op == Replace || op == SplitPart
    ensures TakesBetween(op, n) <==> Takes(op, n)
  {}

  lemma StringTakes(op: ExprType, n: nat)
    requires IsStringFunction(op)
    ensures TakesBetween(op, n) <==> Takes(op, n)
  {
    hide TakesBetween, Takes;
    if TakesOne(op) {
      OneTakes(op, n);
      TakesOnlyOne(op, n);
    } else if op == LeftType || op == RightType {
      TwoTake(op, n);
    } else {
      RestTakes(op, n);
    }
  }

  lemma ConditionalTakes(op: ExprType, n: nat)
    requires IsConditional(op)
    ensures TakesBetween(op, n) <==> Takes(op, n)
  {
    hide TakesBetween, Takes;
    if op == Coalesce { CoalesceTakes(n); }
    else if op == Greatest { GreatestTakes(n); }
    else { LeastTakes(n); }
  }

  lemma CoalesceTakes(n: nat)
    ensures TakesBetween(Coalesce, n) <==> Takes(Coalesce, n)
  {}

  lemma GreatestTakes(n: nat)
    ensures TakesBetween(Greatest, n) <==> Takes(Greatest, n)
  {}

  lemma LeastTakes(n: nat)
    ensures TakesBetween(Least, n) <==> Takes(Least, n)
  {}

  lemma OtherTakes(op: ExprType, n: nat)
    requires !HasName(op) && !IsBinary(op)
    ensures ArityOk(ShapeOf(op), n) <==> Takes(op, n)
  {
    hide ShapeOf, ArityOk, Takes, HasName, IsBinary;
    if IsSuffix(op) {
      SuffixTakes(op, n);
    } else if op == Not || op == ExistsType || op == Exponent || op == PositionType {
      FixedTakes(op, n);
    } else {
      NothingElse(op);
      SpecialTakes(op, n);
    }
  }

  lemma NothingElse(op: ExprType)
    requires !HasName(op) && !IsBinary(op) && !IsSuffix(op)
    requires op != Not && op != ExistsType && op != Exponent && op != PositionType
    ensures op == BetweenType || op == SubstringType || op == LogType || op == CaseType || op == UnknownType
  {}

  lemma SuffixTakes(op: ExprType, n: nat)
    requires IsSuffix(op)
    ensures ArityOk(ShapeOf(op), n) <==> Takes(op, n)
  {
    hide Takes, ShapeOf;
    SuffixShapes();
    SuffixCounts(op, n);
  }

  lemma SuffixCounts(op: ExprType, n: nat)
    requires IsSuffix(op)
    ensures Takes(op, n) <==> if op == IsNull || op == IsNotNull then n == 1 else n >= 2
  {}

  lemma FixedTakes(op: ExprType, n: nat)
    requires op == Not || op == ExistsType || op == Exponent || op == PositionType
    ensures ArityOk(ShapeOf(op), n) <==> Takes(op, n)
  {
    hide ShapeOf, ArityOk, Takes;
    if op == Not { NotTakes(n); }
    else if op == ExistsType { ExistsTakes(n); }
    else if op == Exponent { ExponentTakes(n); }
    else { PositionTakes(n); }
  }

  lemma SpecialTakes(op: ExprType, n: nat)
    requires op == BetweenType || op == SubstringType || op == LogType || op == CaseType || op == UnknownType
    ensures ArityOk(ShapeOf(op), n) <==> Takes(op, n)
  {
    hide ShapeOf, ArityOk, Takes;
    if op == BetweenType { BetweenTakes(n); }
    else if op == SubstringType { SubstringTakes(n); }
    else if op == LogType { LogTakes(n); }
    else if op == CaseType { CaseTakes(n); }
    else { UnknownTakes(n); }
  }

  lemma NotTakes(n: nat)
    ensures ArityOk(ShapeOf(Not), n) <==> Takes(Not, n)
  {
    hide NameOf, SignOf, LeastOf, MostOf;
  }

  lemma ExistsTakes(n: nat)
    ensures ArityOk(ShapeOf(ExistsType), n) <==> Takes(ExistsType, n)
  {
    hide NameOf, SignOf, LeastOf, MostOf;
  }

  lemma ExponentTakes(n: nat)
    ensures ArityOk(ShapeOf(Exponent), n) <==> Takes(Exponent, n)
  {
    hide NameOf, SignOf, LeastOf, MostOf;
  }

  lemma PositionTakes(n: nat)
    ensures ArityOk(ShapeOf(PositionType), n) <==> Takes(PositionType, n)
  {
    hide NameOf, SignOf, LeastOf, MostOf;
  }

  lemma BetweenTakes(n: nat)
    ensures ArityOk(ShapeOf(BetweenType), n) <==> Takes(BetweenType, n)
  {
    hide NameOf, SignOf, LeastOf, MostOf;
  }

  lemma SubstringTakes(n: nat)
    ensures ArityOk(ShapeOf(SubstringType), n) <==> Takes(SubstringType, n)
  {
    hide NameOf, SignOf, LeastOf, MostOf;
  }

  lemma LogTakes(n: nat)
    ensures ArityOk(ShapeOf(LogType), n) <==> Takes(LogType, n)
  {
    hide NameOf, SignOf, LeastOf, MostOf;
  }

  lemma CaseTakes(n: nat)
    ensures ArityOk(ShapeOf(CaseType), n) <==> Takes(CaseType, n)
  {
    hide NameOf, SignOf, LeastOf, MostOf;
  }

  lemma UnknownTakes(n: nat)
    ensures ArityOk(ShapeOf(UnknownType), n) <==> Takes(UnknownType, n)
  {
    hide NameOf, SignOf, LeastOf, MostOf;
  }

  /** An expression of readable operands has a text exactly when their number fits its type; otherwise it throws. */
  lemma ExpressionThrows(tables: map<Path, Path>, op: ExprType, operands: seq<Clause>, parent: Option<ClauseKind>)
    requires forall i :: 0 <= i < |operands| ==> Readable(operands[i])
    ensures Text(tables, Expression(op, operands), parent).Ok? <==> Takes(op, |operands|)
  {
    hide ShapeOf, ArityOk, Takes, Layout, Readable, Reads, Opens;
    TakesExactly(op, |operands|);
    ReadableTexts(tables, operands);
  }

  /** Two readable trees print alike exactly when they are the same tree up to the name of POWER, the unprinted table of
      an EXCLUDED column, and the order of NOTs and suffixes: when they are equal once every NOT under a suffix has been
      moved over it. */
  lemma SameTextSameTree(tables: map<Path, Path>, a: Clause, b: Clause, parent: Option<ClauseKind>)
    requires Readable(a) && Readable(b)
    ensures Text(tables, a, parent) == Text(tables, b, parent) <==> Canonical(a) == Canonical(b)
  {
    hide Text, ReadClause, Canonical, Readable, Ends;
    NothingEnds();
    CanonicalText(tables, a, parent);
    CanonicalText(tables, b, parent);
    ReadsBack(tables, a, parent, "");
    ReadsBack(tables, b, parent, "");
  }

  /** So trees can be confused: NOT applied to a suffix and the suffix applied to NOT, for any operand and suffix. */
  lemma NotAndSuffixCollide(tables: map<Path, Path>, x: Clause, suffix: Suffix, parent: Option<ClauseKind>)
    requires IsSuffix(suffix.op) && ArityOk(ShapeOf(suffix.op), 1 + |suffix.list|)
    requires Text(tables, x, Some(ExpressionKind)).Ok? && Texts(tables, suffix.list, ExpressionKind).Ok?
    ensures var inner, outer := Expression(suffix.op, [x] + suffix.list),
      Expression(suffix.op, [Expression(Not, [x])] + suffix.list);
            && Expression(Not, [inner]) != outer
            && Text(tables, Expression(Not, [inner]), parent) == Text(tables, outer, parent)
            && Text(tables, outer, parent).Ok?
  {
    hide ShapeOf, Layout, SuffixText, ArityOk, Text, Texts;
    var inner, outer := Expression(suffix.op, [x] + suffix.list),
      Expression(suffix.op, [Expression(Not, [x])] + suffix.list);
    var tail := SuffixText(suffix.op, Texts(tables, suffix.list, ExpressionKind).value);
    PlainSuffixText(tables, x, suffix, Some(ExpressionKind));
    NotText(tables, x, Some(ExpressionKind));
    PlainSuffixText(tables, Expression(Not, [x]), suffix, parent);
    NotText(tables, inner, parent);
    var t := Text(tables, x, Some(ExpressionKind)).value;
    assert "NOT " + (t + tail) == ("NOT " + t) + tail;
    assert suffix.op != Not;
  }

  lemma PlainSuffixText(tables: map<Path, Path>, x: Clause, suffix: Suffix, parent: Option<ClauseKind>)
    requires IsSuffix(suffix.op) && ArityOk(ShapeOf(suffix.op), 1 + |suffix.list|)
    requires Text(tables, x, Some(ExpressionKind)).Ok? && Texts(tables, suffix.list, ExpressionKind).Ok?
    ensures Text(tables, Expression(suffix.op, [x] + suffix.list), parent) ==
            Ok(Text(tables, x, Some(ExpressionKind)).value +
              SuffixText(suffix.op, Texts(tables, suffix.list, ExpressionKind).value))
  {
    hide ShapeOf, Layout, SuffixText, ArityOk;
    var texts := [Text(tables, x, Some(ExpressionKind)).value] + Texts(tables, suffix.list, ExpressionKind).value;
    NextTexts(tables, x, suffix.list);
    SuffixLayout(suffix.op, texts);
    assert texts[1..] == Texts(tables, suffix.list, ExpressionKind).value;
  }
}
