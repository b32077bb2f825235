/** Format: cutting a format string into literals and placeholders, and rendering them in order. */
module FormatText {
  import opened Common
  import Decimal
  import opened FormatScan

  // ---------------------------------------------------------------------------------- Escapes

  function EscapeChar(c: char): string {
    if c == '\\' then "\\\\" else if c == '\n' then "\\n" else if c == '\r' then "\\r" else [c]
  }

  /** EscapeSymbols. */
  function Escaped(s: string): string { if s == "" then "" else EscapeChar(s[0]) + Escaped(s[1..]) }

  /** The character an escape stands for; a character without a meaning of its own stands for itself. */
  function Meaning(c: char): char { if c == 'n' then '\n' else if c == 'r' then '\r' else c }

  /** UnescapeSymbols; a backslash at the very end stays. */
  function Unescaped(s: string): string {
    if s == "" then ""
    else if s[0] == '\\' && |s| > 1 then [Meaning(s[1])] + Unescaped(s[2..])
    else [s[0]] + Unescaped(s[1..])
  }

  method EscapeSymbols(s: string) returns (result: string)
    ensures result == Escaped(s)
  {
    hide Escaped;
    result := "";
    assert s[0..] == s;
    for i := 0 to |s|
      invariant result + Escaped(s[i..]) == Escaped(s)
    {
      var escaped;
      match s[i] {
        case '\\' => escaped := "\\\\";
        case '\n' => escaped := "\\n";
        case '\r' => escaped := "\\r";
        case c => escaped := [c];
      }
      EscapedFrom(s, i, escaped);
      assert result + (escaped + Escaped(s[i + 1..])) == result + escaped + Escaped(s[i + 1..]);
      result := result + escaped;
    }
    NothingEscaped(s[|s|..]);
  }

  lemma NothingEscaped(s: string)
    requires |s| == 0
    ensures Escaped(s) == ""
  {}

  lemma EscapedFrom(s: string, i: nat, escaped: string)
    requires i < |s| && escaped == EscapeChar(s[i])
    ensures Escaped(s[i..]) == escaped + Escaped(s[i + 1..])
  {
    hide EscapeChar;
    assert s[i..][1..] == s[i + 1..];
  }

  method UnescapeSymbols(s: string) returns (result: string)
    ensures result == Unescaped(s)
  {
    hide Unescaped;
    result := "";
    var i := 0;
    assert s[0..] == s;
    while i < |s|
      invariant i <= |s| && result + Unescaped(s[i..]) == Unescaped(s)
    {
      if s[i] == '\\' && i + 1 < |s| {
        UnescapedFrom(s, i, 2, Meaning(s[i + 1]));
        result := result + [Meaning(s[i + 1])];
        i := i + 2;
      } else {
        UnescapedFrom(s, i, 1, s[i]);
        result := result + [s[i]];
        i := i + 1;
      }
    }
    NothingToUnescape(s[|s|..]);
  }

  /** One character of the result, from the next one or two. */
  lemma UnescapedFrom(s: string, i: nat, length: nat, c: char)
    requires i < |s| && c == (if length == 2 && i + 1 < |s| then Meaning(s[i + 1]) else s[i])
    requires length == if s[i] == '\\' && i + 1 < |s| then 2 else 1
    ensures forall before: string :: before + Unescaped(s[i..]) == before + [c] + Unescaped(s[i + length..])
  {
    assert s[i..][length..] == s[i + length..];
    hide Unescaped;
    forall before: string
      ensures before + ([c] + Unescaped(s[i + length..])) == before + [c] + Unescaped(s[i + length..])
    {
    }
  }

  lemma NothingToUnescape(s: string)
    requires |s| == 0
    ensures Unescaped(s) == ""
  {}

  /** Unescaping undoes escaping. */
  lemma {:induction false} UnescapeEscaped(s: string)
    ensures Unescaped(Escaped(s)) == s
  {
    if s != "" {
      UnescapeEscaped(s[1..]);
      var tail := Escaped(s[1..]);
      var all := EscapeChar(s[0]) + tail;
      if |EscapeChar(s[0])| == 2 {
        assert all[2..] == tail && all[0] == '\\' && Meaning(all[1]) == s[0];
      } else {
        assert all[1..] == tail && all[0] == s[0];
      }
      assert s == [s[0]] + s[1..];
    }
  }

  /** A line break in a text becomes a backslash and a letter, a backslash is doubled, the rest stays as it is. */
  lemma {:induction false} LineBreaksEscaped(before: string, after: string)
    ensures Escaped(before + "\n" + after) == Escaped(before) + "\\n" + Escaped(after)
    ensures Escaped(before + "\r" + after) == Escaped(before) + "\\r" + Escaped(after)
    ensures Escaped(before + "\\" + after) == Escaped(before) + "\\\\" + Escaped(after)
    ensures forall c :: c != '\n' && c != '\r' && c != '\\' ==>
              Escaped(before + [c] + after) == Escaped(before) + [c] + Escaped(after)
  {
    hide Escaped;
    forall c ensures Escaped(before + [c] + after) == Escaped(before) + EscapeChar(c) + Escaped(after) {
      EscapedApart(before, [c] + after);
      EscapedFirst(c, after);
      assert before + [c] + after == before + ([c] + after);
    }
    assert Escaped(before + ['\n'] + after) == Escaped(before) + EscapeChar('\n') + Escaped(after);
    assert Escaped(before + ['\r'] + after) == Escaped(before) + EscapeChar('\r') + Escaped(after);
    assert Escaped(before + ['\\'] + after) == Escaped(before) + EscapeChar('\\') + Escaped(after);
  }

  lemma EscapedFirst(c: char, s: string)
    ensures Escaped([c] + s) == EscapeChar(c) + Escaped(s)
  {
    hide EscapeChar;
    assert ([c] + s)[1..] == s;
  }

  lemma {:induction false} EscapedApart(a: string, b: string)
    ensures Escaped(a + b) == Escaped(a) + Escaped(b)
  {
    hide EscapeChar;
    if a == "" {
      assert a + b == b;
    } else {
      EscapedApart(a[1..], b);
      EscapedFirst(a[0], a[1..] + b);
      assert a + b == [a[0]] + (a[1..] + b);
      assert a == [a[0]] + a[1..];
    }
  }

  /** An escaped text is one line. */
  lemma {:induction false} EscapedIsOneLine(s: string)
    ensures '\n' !in Escaped(s) && '\r' !in Escaped(s)
  {
    if s != "" { EscapedIsOneLine(s[1..]); }
  }

  // ---------------------------------------------------------------------------------- Pieces

  ghost predicate IsPlaceholder(s: string, pos: nat, p: Placeholder) {
    FirstOpen(s, pos, p.open) && Closes(s, p.open, p.close) && DollarOf(s, p.open, p.dollar)
  }

  /** The placeholder FindPlaceHolder finds. */
  ghost function Found(s: string, pos: nat): Option<Placeholder> {
    if exists p :: IsPlaceholder(s, pos, p) then (var p :| IsPlaceholder(s, pos, p); Some(p)) else None
  }

  lemma FoundIs(s: string, pos: nat)
    requires Found(s, pos).Some?
    ensures IsPlaceholder(s, pos, Found(s, pos).value)
  {}

  lemma PlaceholderUnique(s: string, pos: nat, p: Placeholder, q: Placeholder)
    requires IsPlaceholder(s, pos, p) && IsPlaceholder(s, pos, q)
    ensures p == q
  {
    hide Depth;
    LiveIsAhead(s, pos, false, p.open);
    LiveIsAhead(s, pos, false, q.open);
    assert p.open == q.open;
    assert p.close == q.close;
    DollarUnique(s, p.open, p.dollar, q.dollar);
  }

  lemma DollarUnique(s: string, open: nat, a: Option<nat>, b: Option<nat>)
    requires open <= |s| && DollarOf(s, open, a) && DollarOf(s, open, b)
    ensures a == b
  {
    assert !Decimal.IsDigit('$');
  }

  method NextPlaceholder(s: string, pos: nat) returns (r: Option<Placeholder>)
    ensures r == Found(s, pos)
    ensures r.Some? ==> IsPlaceholder(s, pos, r.value)
  {
    hide FirstOpen, Closes, DollarOf;
    r := FindPlaceHolder(s, pos);
    if r.Some? {
      var q := Found(s, pos);
      assert IsPlaceholder(s, pos, r.value);
      PlaceholderUnique(s, pos, r.value, q.value);
    } else {
      forall p ensures !IsPlaceholder(s, pos, p) {}
    }
  }

  /** A literal as it stands in the format string, or a placeholder with its index digits and modifiers. */
  datatype Piece = Literal(text: string) | Holder(digits: Option<string>, modifiers: string)

  /** Where a placeholder's text starts: at its dollar, if indices count, or at its brace. */
  function StartOf(p: Placeholder, indexed: bool): nat { if indexed && p.dollar.Some? then p.dollar.value else p.open }

  /** Between placeholders: the beginning, or just after a closing brace. */
  predicate Boundary(s: string, pos: nat) { pos <= |s| && (pos == 0 || s[pos - 1] == '}') }

  lemma PlaceholderFits(s: string, pos: nat, p: Placeholder)
    requires Boundary(s, pos) && IsPlaceholder(s, pos, p)
    ensures pos <= p.open < p.close < |s| && s[p.open] == '{' && s[p.close] == '}' && Boundary(s, p.close + 1)
    ensures p.dollar.Some? ==> pos <= p.dollar.value < p.open && s[p.dollar.value] == '$'
    ensures p.dollar.Some? ==> forall j :: p.dollar.value < j < p.open ==> Decimal.IsDigit(s[j])
  {
    hide Count;
    LiveIsAhead(s, pos, false, p.open);
    ClosesAtBrace(s, p.open, p.close);
    assert !Decimal.IsDigit('}');
  }

  /** The depth falls only at a closing brace. */
  lemma ClosesAtBrace(s: string, open: nat, close: nat)
    requires Closes(s, open, close)
    ensures s[close] == '}'
  {
    assert Depth(s, open, close - 1) > 0;
    assert Count(s, open, '}', close + 1) == Count(s, open, '}', close) + if LiveChar(s, open, '}', close) then 1
      else 0;
    assert Count(s, open, '{', close + 1) >= Count(s, open, '{', close);
  }

  function DigitsOf(s: string, p: Placeholder): string
    requires p.dollar.Some? && p.dollar.value < p.open <= |s|
  {
    s[p.dollar.value + 1..p.open]
  }

  function HolderOf(s: string, p: Placeholder, indexed: bool): Piece
    requires p.open < p.close < |s| && (p.dollar.Some? ==> p.dollar.value < p.open)
  {
    Holder(if indexed && p.dollar.Some? then Some(DigitsOf(s, p)) else None, s[p.open + 1..p.close])
  }

  /** The pieces of the format string from a boundary on. */
  ghost function Pieces(s: string, pos: nat, indexed: bool): seq<Piece>
    requires Boundary(s, pos)
    decreases |s| - pos
  {
    match Found(s, pos)
    case None => [Literal(s[pos..])]
    case Some(p) =>
      PlaceholderFits(s, pos, p);
      [Literal(s[pos..StartOf(p, indexed)]), HolderOf(s, p, indexed)] + Pieces(s, p.close + 1, indexed)
  }

  /** A piece as it stands in the format string. */
  function Raw(piece: Piece): string {
    match piece
    case Literal(text) => text
    case Holder(digits, modifiers) => Lead(digits) + Braced(modifiers)
  }

  function Lead(digits: Option<string>): string { if digits.Some? then "$" + digits.value else "" }

  function Braced(modifiers: string): string { "{" + modifiers + "}" }

  function RawAll(pieces: seq<Piece>): string { if pieces == [] then "" else Raw(pieces[0]) + RawAll(pieces[1..]) }

  /** Literals and placeholders partition the format string. */
  lemma {:induction false} PiecesPartition(s: string, pos: nat, indexed: bool)
    requires Boundary(s, pos)
    ensures RawAll(Pieces(s, pos, indexed)) == s[pos..]
    decreases |s| - pos
  {
    hide IsPlaceholder, HolderOf, Raw, RawAll, Found;
    match Found(s, pos) {
      case None => OneRaw(s[pos..]);
      case Some(p) =>
        FoundIs(s, pos);
        PlaceholderFits(s, pos, p);
        LiteralRaw(s[pos..StartOf(p, indexed)]);
        PiecesPartition(s, p.close + 1, indexed);
        var literal, holder, rest := Literal(s[pos..StartOf(p, indexed)]), HolderOf(s, p, indexed),
          Pieces(s, p.close + 1, indexed);
        TwoRaw(literal, holder, rest);
        HolderRaw(s, p, indexed);
        ThreeParts(s, pos, StartOf(p, indexed), p.close + 1);
    }
  }

  lemma LiteralRaw(text: string)
    ensures Raw(Literal(text)) == text
  {}

  lemma ThreeParts(s: string, a: nat, b: nat, c: nat)
    requires a <= b <= c <= |s|
    ensures s[a..b] + (s[b..c] + s[c..]) == s[a..]
  {}

  lemma OneRaw(text: string)
    ensures RawAll([Literal(text)]) == text
  {
    assert [Literal(text)][1..] == [] && text + "" == text;
  }

  lemma TwoRaw(a: Piece, b: Piece, rest: seq<Piece>)
    ensures RawAll([a, b] + rest) == Raw(a) + (Raw(b) + RawAll(rest))
  {
    var all := [a, b] + rest;
    assert all[1..] == [b] + rest && all[1..][1..] == rest;
  }

  lemma HolderRaw(s: string, p: Placeholder, indexed: bool)
    requires p.open < p.close < |s| && s[p.open] == '{' && s[p.close] == '}'
    requires p.dollar.Some? ==> p.dollar.value < p.open && s[p.dollar.value] == '$'
    ensures Raw(HolderOf(s, p, indexed)) == s[StartOf(p, indexed)..p.close + 1]
  {
    hide Lead, Braced;
    if indexed && p.dollar.Some? {
      RawWithIndex(s, p.dollar.value, p.open, p.close);
    } else {
      RawWithout(s, p.open, p.close);
    }
  }

  lemma RawWithIndex(s: string, dollar: nat, open: nat, close: nat)
    requires dollar < open < close < |s| && s[dollar] == '$' && s[open] == '{' && s[close] == '}'
    ensures Lead(Some(s[dollar + 1..open])) + Braced(s[open + 1..close]) == s[dollar..close + 1]
  {
    hide Lead, Braced;
    BraceSlice(s, open, close);
    DollarSlice(s, dollar, open);
    TwoSlices(s, dollar, open, close + 1);
  }

  lemma RawWithout(s: string, open: nat, close: nat)
    requires open < close < |s| && s[open] == '{' && s[close] == '}'
    ensures Lead(None) + Braced(s[open + 1..close]) == s[open..close + 1]
  {
    hide Lead, Braced;
    BraceSlice(s, open, close);
    NoLead();
    var braced := s[open..close + 1];
    assert "" + braced == braced;
  }

  lemma TwoSlices(s: string, a: nat, b: nat, c: nat)
    requires a <= b <= c <= |s|
    ensures s[a..b] + s[b..c] == s[a..c]
  {}

  lemma BraceSlice(s: string, open: nat, close: nat)
    requires open < close < |s| && s[open] == '{' && s[close] == '}'
    ensures Braced(s[open + 1..close]) == s[open..close + 1]
  {}

  lemma DollarSlice(s: string, dollar: nat, open: nat)
    requires dollar < open <= |s| && s[dollar] == '$'
    ensures Lead(Some(s[dollar + 1..open])) == s[dollar..open]
  {}

  lemma NoLead()
    ensures Lead(None) == ""
  {}

  // ---------------------------------------------------------------------------------- Sequential formatting

  /** The output for the pieces when the next placeholder is number k: each literal unescaped, the k-th argument
      under the k-th modifiers, or the placeholder without its index when there are no more arguments. */
  function Sequential(pieces: seq<Piece>, k: nat, count: nat, render: (nat, string) -> string): string {
    if pieces == [] then ""
    else
      match pieces[0]
      case Literal(text) => Unescaped(text) + Sequential(pieces[1..], k, count, render)
      case Holder(_, modifiers) =>
        (if k >= count then Braced(modifiers) else render(k, modifiers)) + Sequential(pieces[1..], k + 1, count, render)
  }

  lemma SequentialStep(text: string, digits: Option<string>, modifiers: string, rest: seq<Piece>, k: nat, count: nat,
                       render: (nat, string) -> string)
    ensures Sequential([Literal(text), Holder(digits, modifiers)] + rest, k, count, render) ==
            Unescaped(text) +
              ((if k >= count then Braced(modifiers) else render(k, modifiers)) +
              Sequential(rest, k + 1, count, render))
  {
    hide Unescaped, Braced;
    var all := [Literal(text), Holder(digits, modifiers)] + rest;
    assert all[1..] == [Holder(digits, modifiers)] + rest && all[1..][1..] == rest;
  }

  lemma SequentialEnd(text: string, k: nat, count: nat, render: (nat, string) -> string)
    ensures Sequential([Literal(text)], k, count, render) == Unescaped(text)
  {
    hide Unescaped;
    assert [Literal(text)][1..] == [] && Unescaped(text) + "" == Unescaped(text);
  }

  lemma PiecesAtEnd(s: string, indexed: bool)
    requires Boundary(s, |s|)
    ensures Pieces(s, |s|, indexed) == [Literal("")]
  {
    hide Closes, DollarOf;
    forall p ensures !IsPlaceholder(s, |s|, p) { assert !LiveFrom(s, |s|, false, p.open); }
    assert Found(s, |s|) == None && s[|s|..] == "";
  }

  /** FormatWithTupleSequential; arguments are rendered by number and modifiers. */
  method FormatSequential(s: string, count: nat, render: (nat, string) -> string) returns (output: string)
    ensures output == Sequential(Pieces(s, 0, false), 0, count, render)
  {
    hide Unescaped, Sequential, IsPlaceholder, Found, FirstOpen, Closes, DollarOf, RawAll, Braced;
    output := "";
    var pos, argIndex := 0, 0;
    ghost var all := Sequential(Pieces(s, 0, false), 0, count, render);
    while pos < |s|
      invariant Boundary(s, pos) && output + Sequential(Pieces(s, pos, false), argIndex, count, render) == all
      decreases |s| - pos
    {
      var found := NextPlaceholder(s, pos);
      if found.None? {
        var text := UnescapeSymbols(s[pos..]);
        SequentialEnd(s[pos..], argIndex, count, render);
        output := output + text;
        return;
      }
      var p := found.value;
      PlaceholderFits(s, pos, p);
      var text := UnescapeSymbols(s[pos..p.open]);
      var modifiers := "";
      if p.open + 1 != p.close { modifiers := s[p.open + 1..p.close]; }
      assert modifiers == s[p.open + 1..p.close];
      var rendered := if argIndex >= count then Braced(modifiers) else render(argIndex, modifiers);
      SequentialStep(s[pos..p.open], None, modifiers, Pieces(s, p.close + 1, false), argIndex, count, render);
      Reassociate(output, text, rendered, Sequential(Pieces(s, p.close + 1, false), argIndex + 1, count, render));
      output := output + text + rendered;
      pos := p.close + 1;
      argIndex := argIndex + 1;
    }
    PiecesAtEnd(s, false);
    SequentialEnd("", argIndex, count, render);
    NothingUnescaped();
  }

  lemma Reassociate(a: string, b: string, c: string, d: string)
    ensures a + (b + (c + d)) == a + b + c + d
  {}

  lemma NothingUnescaped()
    ensures Unescaped("") == ""
  {}

  // ---------------------------------------------------------------------------------- Indexed formatting

  const MAX_ULONG := 0xFFFF_FFFF_FFFF_FFFF

  /** std::stoul on a text that starts with a digit or no number at all. */
  function Stoul(text: string): Result<nat> {
    var n := Decimal.DigitRun(text);
    if n == 0 || Decimal.Value(text[..n]) > MAX_ULONG then Throw else Ok(Decimal.Value(text[..n]))
  }

  /** The argument a placeholder stands for: its index less one, around zero; else the next in turn. */
  function ArgumentOf(digits: Option<string>, next: nat): Result<nat> {
    if digits.None? then Ok(next)
    else match Stoul(digits.value) case Ok(v) => Ok(if v == 0 then MAX_ULONG else v - 1) case Throw => Throw
  }

  predicate AllDigits(s: string) { forall i :: 0 <= i < |s| ==> Decimal.IsDigit(s[i]) }

  /** An index that stoul takes. */
  predicate IsNumber(digits: string) { digits != "" && AllDigits(digits) && Decimal.Value(digits) <= MAX_ULONG }

  /** The number of the argument, one above, is the index. */
  lemma ArgumentIs(digits: string, next: nat)
    requires AllDigits(digits)
    ensures IsNumber(digits) <==> ArgumentOf(Some(digits), next).Ok?
    ensures IsNumber(digits) ==>
      var argument := ArgumentOf(Some(digits), next).value;
      if Decimal.Value(digits) == 0 then argument == MAX_ULONG else argument + 1 == Decimal.Value(digits)
  {
    assert digits + "" == digits;
    Decimal.RunOfDigits(digits, "");
    assert digits[..|digits|] == digits;
  }

  /** An argument that is not there renders as nothing. */
  function Rendered(argument: nat, modifiers: string, count: nat, render: (nat, string) -> string): string {
    if argument < count then render(argument, modifiers) else ""
  }

  /** The output for the pieces, rendering every placeholder anew; a bad index throws. */
  function Indexed(pieces: seq<Piece>, next: nat, count: nat, render: (nat, string) -> string): Result<string> {
    if pieces == [] then Ok("")
    else
      match pieces[0]
      case Literal(text) => Before(Unescaped(text), Indexed(pieces[1..], next, count, render))
      case Holder(digits, modifiers) =>
        match ArgumentOf(digits, next)
        case Throw => Throw
        case Ok(argument) =>
          Before(Rendered(argument, modifiers, count, render),
                 Indexed(pieces[1..], if digits.None? then next + 1 else next, count, render))
  }

  function Before(text: string, rest: Result<string>): Result<string> {
    match rest case Ok(more) => Ok(text + more) case Throw => Throw
  }

  lemma IndexedStep(text: string, digits: Option<string>, modifiers: string, rest: seq<Piece>, next: nat, count: nat,
                    render: (nat, string) -> string)
    ensures Indexed([Literal(text), Holder(digits, modifiers)] + rest, next, count, render) ==
            Before(Unescaped(text),
              match ArgumentOf(digits, next)
              case Throw => Throw
              case Ok(argument) =>
                Before(Rendered(argument, modifiers, count, render),
                       Indexed(rest, if digits.None? then next + 1 else next, count, render)))
  {
    hide Unescaped, ArgumentOf, Rendered, Before;
    var all := [Literal(text), Holder(digits, modifiers)] + rest;
    assert all[1..] == [Holder(digits, modifiers)] + rest && all[1..][1..] == rest;
  }

  lemma IndexedEnd(text: string, next: nat, count: nat, render: (nat, string) -> string)
    ensures Indexed([Literal(text)], next, count, render) == Ok(Unescaped(text))
  {
    hide Unescaped;
    assert [Literal(text)][1..] == [] && Unescaped(text) + "" == Unescaped(text);
  }

  /** The text handed to stoul runs past the digits, but never starts with another number than they do. */
  lemma StoulOfDigits(s: string, p: Placeholder, text: string)
    requires p.open < |s| && s[p.open] == '{' && p.dollar.Some? && p.dollar.value < p.open
    requires forall j :: p.dollar.value < j < p.open ==> Decimal.IsDigit(s[j])
    requires DigitsOf(s, p) <= text <= s[p.dollar.value + 1..]
    ensures Stoul(text) == Stoul(DigitsOf(s, p))
  {
    hide Decimal.Value;
    var digits := DigitsOf(s, p);
    var rest := text[|digits|..];
    assert text == digits + rest && digits == digits + "";
    if rest != "" { assert rest[0] == s[p.open]; }
    Decimal.RunOfDigits(digits, rest);
    Decimal.RunOfDigits(digits, "");
    assert text[..|digits|] == digits && digits[..|digits|] == digits;
  }

  /** Every cached replacement is what rendering again would give. */
  ghost predicate CacheOk(cache: map<(nat, string), string>, count: nat, render: (nat, string) -> string) {
    forall argument: nat, modifiers :: (argument, modifiers) in cache ==>
      cache[(argument, modifiers)] == Rendered(argument, modifiers, count, render)
  }

  /** The index of a placeholder, as the code cuts it out of the format string. */
  method ReadIndex(s: string, p: Placeholder, next: nat) returns (r: Result<nat>)
    requires p.open < |s| && s[p.open] == '{' && (p.dollar.Some? ==> p.dollar.value < p.open)
    requires p.dollar.Some? ==> forall j :: p.dollar.value < j < p.open ==> Decimal.IsDigit(s[j])
    ensures p.dollar.None? ==> r == Ok(next)
    ensures p.dollar.Some? ==> (r.Ok? <==> IsNumber(DigitsOf(s, p)))
    ensures p.dollar.Some? && r.Ok? ==>
      if Decimal.Value(DigitsOf(s, p)) == 0 then r.value == MAX_ULONG else r.value + 1 == Decimal.Value(DigitsOf(s, p))
    ensures r == ArgumentOf(if p.dollar.Some? then Some(DigitsOf(s, p)) else None, next)
  {
    if p.dollar.Some? { ArgumentIs(DigitsOf(s, p), next); }
    if p.dollar.None? { return Ok(next); }
    var from := p.dollar.value + 1;
    var length := if from + (p.open - 1) <= |s| then p.open - 1 else |s| - from;
    var text := s[from..from + length];
    assert DigitsOf(s, p) == text[..p.open - from];
    assert text == s[from..][..length];
    StoulOfDigits(s, p, text);
    match Stoul(text) {
      case Throw => return Throw;
      case Ok(v) => return Ok(if v == 0 then MAX_ULONG else v - 1);
    }
  }

  /** FormatWithTuple, with its cache of replacements: the output is that of the form without a cache. */
  method FormatIndexed(s: string, count: nat, render: (nat, string) -> string) returns (r: Result<string>)
    ensures r == Indexed(Pieces(s, 0, true), 0, count, render)
  {
    hide Unescaped, Indexed, IsPlaceholder, Found, FirstOpen, Closes, DollarOf, RawAll, ArgumentOf, Rendered;
    var output := "";
    var cache: map<(nat, string), string> := map[];
    var pos, nextArgIndex := 0, 0;
    ghost var all := Indexed(Pieces(s, 0, true), 0, count, render);
    BeforeNothing(all);
    while true
      invariant Boundary(s, pos) && CacheOk(cache, count, render)
      invariant Before(output, Indexed(Pieces(s, pos, true), nextArgIndex, count, render)) == all
      decreases |s| - pos
    {
      var found := NextPlaceholder(s, pos);
      if found.None? {
        var text := UnescapeSymbols(s[pos..]);
        IndexedEnd(s[pos..], nextArgIndex, count, render);
        return Ok(output + text);
      }
      var p := found.value;
      PlaceholderFits(s, pos, p);
      var start := if p.dollar.Some? then p.dollar.value else p.open;
      var text := UnescapeSymbols(s[pos..start]);
      var modifiers := "";
      if p.open + 1 != p.close { modifiers := s[p.open + 1..p.close]; }
      assert modifiers == s[p.open + 1..p.close];
      var argIndex := ReadIndex(s, p, nextArgIndex);
      ghost var rest, digits := Pieces(s, p.close + 1, true), if p.dollar.Some? then Some(DigitsOf(s, p)) else None;
      IndexedStep(s[pos..start], digits, modifiers, rest, nextArgIndex, count, render);
      if argIndex.Throw? { return Throw; }
      if p.dollar.None? { nextArgIndex := nextArgIndex + 1; }
      var replacement;
      if (argIndex.value, modifiers) in cache {
        replacement := cache[(argIndex.value, modifiers)];
      } else {
        replacement := Rendered(argIndex.value, modifiers, count, render);
        cache := cache[(argIndex.value, modifiers) := replacement];
      }
      BeforeTwice(output, text, replacement, Indexed(rest, nextArgIndex, count, render));
      output := output + text + replacement;
      pos := p.close + 1;
    }
  }

  lemma BeforeNothing(r: Result<string>)
    ensures Before("", r) == r
  {
    if r.Ok? { assert "" + r.value == r.value; }
  }

  lemma BeforeTwice(a: string, b: string, c: string, rest: Result<string>)
    ensures Before(a, Before(b, Before(c, rest))) == Before(a + b + c, rest)
  {
    if rest.Ok? { assert a + (b + (c + rest.value)) == a + b + c + rest.value; }
  }

  // ---------------------------------------------------------------------------------- Choosing the form

  ghost predicate HasIndex(pieces: seq<Piece>) {
    exists i :: 0 <= i < |pieces| && pieces[i].Holder? && pieces[i].digits.Some?
  }

  ghost function Holders(pieces: seq<Piece>): nat {
    if pieces == [] then 0 else (if pieces[0].Holder? then 1 else 0) + Holders(pieces[1..])
  }

  /** HasIndexedPlaceholders. */
  method HasIndexedPlaceholders(s: string) returns (r: bool)
    ensures r <==> HasIndex(Pieces(s, 0, true))
  {
    hide IsPlaceholder, Found, FirstOpen, Closes, DollarOf, RawAll, HasIndex;
    var pos := 0;
    while pos < |s|
      invariant Boundary(s, pos) && (HasIndex(Pieces(s, pos, true)) <==> HasIndex(Pieces(s, 0, true)))
      decreases |s| - pos
    {
      var found := NextPlaceholder(s, pos);
      if found.None? {
        LiteralHasNoIndex(s[pos..]);
        return false;
      }
      var p := found.value;
      PlaceholderFits(s, pos, p);
      IndexInPieces(s[pos..StartOf(p, true)], HolderOf(s, p, true), Pieces(s, p.close + 1, true));
      if p.dollar.Some? { return true; }
      pos := p.close + 1;
    }
    PiecesAtEnd(s, true);
    LiteralHasNoIndex("");
    return false;
  }

  lemma LiteralHasNoIndex(text: string)
    ensures !HasIndex([Literal(text)])
  {}

  lemma IndexInPieces(text: string, holder: Piece, rest: seq<Piece>)
    requires holder.Holder?
    ensures HasIndex([Literal(text), holder] + rest) <==> (holder.digits.Some? || HasIndex(rest))
  {
    var all := [Literal(text), holder] + rest;
    assert all[1] == holder && forall i :: 0 <= i < |rest| ==> all[i + 2] == rest[i];
  }

  /** Format: the indexed form if some placeholder has an index, else the sequential form. */
  method Format(s: string, count: nat, render: (nat, string) -> string) returns (r: Result<string>)
    ensures r == if HasIndex(Pieces(s, 0, true)) then Indexed(Pieces(s, 0, true), 0, count, render)
                 else Ok(Sequential(Pieces(s, 0, false), 0, count, render))
  {
    hide Pieces, Indexed, Sequential;
    var indexed := HasIndexedPlaceholders(s);
    if !indexed {
      var output := FormatSequential(s, count, render);
      return Ok(output);
    }
    r := FormatIndexed(s, count, render);
  }

  /** Without an index the two ways of cutting agree. */
  lemma {:induction false} NoIndexSamePieces(s: string, pos: nat)
    requires Boundary(s, pos) && !HasIndex(Pieces(s, pos, true))
    ensures Pieces(s, pos, true) == Pieces(s, pos, false)
    decreases |s| - pos
  {
    hide IsPlaceholder, HasIndex, Found;
    match Found(s, pos) {
      case None =>
      case Some(p) =>
        FoundIs(s, pos);
        PlaceholderFits(s, pos, p);
        IndexInPieces(s[pos..StartOf(p, true)], HolderOf(s, p, true), Pieces(s, p.close + 1, true));
        NoIndexSamePieces(s, p.close + 1);
    }
  }

  /** And with an argument for every placeholder the two forms give the same output. */
  lemma {:induction false} FormsAgree(pieces: seq<Piece>, k: nat, count: nat, render: (nat, string) -> string)
    requires !HasIndex(pieces) && k + Holders(pieces) <= count
    ensures Indexed(pieces, k, count, render) == Ok(Sequential(pieces, k, count, render))
  {
    hide Unescaped, Stoul, Braced;
    if pieces != [] {
      NoIndexInRest(pieces);
      FormsAgree(pieces[1..], if pieces[0].Holder? then k + 1 else k, count, render);
    }
  }

  lemma NoIndexInRest(pieces: seq<Piece>)
    requires pieces != [] && !HasIndex(pieces)
    ensures !HasIndex(pieces[1..]) && (pieces[0].Holder? ==> pieces[0].digits.None?)
  {
    assert forall i :: 0 <= i < |pieces[1..]| ==> pieces[1..][i] == pieces[i + 1];
  }
}
