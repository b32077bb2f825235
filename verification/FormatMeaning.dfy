/** What the pieces of a format string are, and which argument each placeholder renders. */
module FormatMeaning {
  import opened Common
  import opened FormatScan
  import opened FormatText
  import Decimal

  // ---------------------------------------------------------------------------------- Scanning a part alone

  /** A part of a string, scanned alone, has the live characters it has in the string. */
  lemma {:induction false} LiveInPart(s: string, a: nat, b: nat, i: nat, inQuote: bool, p: nat)
    requires a <= b <= |s| && p < b - a && s[a + p] != '\\'
    ensures LiveFrom(s[a..b], i, inQuote, p) <==> LiveFrom(s, a + i, inQuote, a + p)
    decreases b - a - i
  {
    var part := s[a..b];
    if i >= |part| {
      if LiveFrom(s, a + i, inQuote, a + p) { LiveIsAhead(s, a + i, inQuote, a + p); }
    } else if part[i] == '\\' && i + 1 < |part| {
      LiveInPart(s, a, b, i + 2, inQuote, p);
    } else if part[i] == '\\' {
      EndsInEscape(s, a + i, inQuote, a + p);
    } else if part[i] == '\'' {
      LiveInPart(s, a, b, i + 1, !inQuote, p);
    } else {
      LiveInPart(s, a, b, i + 1, inQuote, p);
    }
  }

  lemma EndsInEscape(s: string, i: nat, inQuote: bool, p: nat)
    requires p <= i < |s| && s[i] == '\\' && s[p] != '\\'
    ensures !LiveFrom(s, i, inQuote, p)
  {
    NothingBehind(s, i + 1, inQuote, p);
    NothingBehind(s, i + 2, inQuote, p);
  }

  lemma NothingBehind(s: string, i: nat, inQuote: bool, p: nat)
    requires p < i
    ensures !LiveFrom(s, i, inQuote, p)
  {
    if LiveFrom(s, i, inQuote, p) { LiveIsAhead(s, i, inQuote, p); }
  }

  lemma {:induction false} CountInPart(s: string, a: nat, b: nat, from: nat, c: char, p: nat)
    requires a <= b <= |s| && p <= b - a && c != '\\'
    ensures Count(s[a..b], from, c, p) == Count(s, a + from, c, a + p)
  {
    if p == 0 {
      NothingCounted(s, a + from, c, a);
    } else {
      CountInPart(s, a, b, from, c, p - 1);
      if s[a + p - 1] == c { LiveInPart(s, a, b, from, false, p - 1); }
    }
  }

  lemma DepthInPart(s: string, a: nat, b: nat, open: nat, p: nat)
    requires a <= b <= |s| && p < b - a
    ensures Depth(s[a..b], open, p) == Depth(s, a + open, a + p)
  {
    CountInPart(s, a, b, open, '{', p + 1);
    CountInPart(s, a, b, open, '}', p + 1);
  }

  lemma ClosesInPart(s: string, a: nat, b: nat, open: nat, close: nat)
    requires a <= b <= |s| && close < b - a
    ensures Closes(s[a..b], open, close) <==> Closes(s, a + open, a + close)
  {
    hide Depth;
    forall p | open <= p <= close ensures Depth(s[a..b], open, p) == Depth(s, a + open, a + p) {
      DepthInPart(s, a, b, open, p);
    }
    if Closes(s[a..b], open, close) {
      var from := a + open;
      forall p | from <= p < a + close ensures Depth(s, from, p) > 0 { assert Depth(s[a..b], open, p - a) > 0; }
    }
  }

  // ---------------------------------------------------------------------------------- The pieces

  /** The text has an opening brace that is closed. */
  ghost predicate HasPlaceholder(text: string) {
    exists open: nat, close: nat :: FirstOpen(text, 0, open) && Closes(text, open, close)
  }

  /** The braces around the modifiers belong together. */
  ghost predicate IsOnePlaceholder(modifiers: string) { Closes(Braced(modifiers), 0, |modifiers| + 1) }

  /** No literal has a placeholder in it, and each placeholder ends at the brace that closes it. */
  ghost predicate WellCut(pieces: seq<Piece>) {
    forall i :: 0 <= i < |pieces| ==>
      match pieces[i]
      case Literal(text) => !HasPlaceholder(text)
      case Holder(digits, modifiers) =>
        IsOnePlaceholder(modifiers) && (digits.Some? ==> AllDigits(digits.value))
  }

  /** A part that ends before the first opening brace. */
  lemma NoOpenBefore(s: string, pos: nat, open: nat, b: nat)
    requires FirstOpen(s, pos, open) && pos <= b <= open <= |s|
    ensures !HasPlaceholder(s[pos..b])
  {
    hide Closes;
    if p: nat :| FirstOpen(s[pos..b], 0, p) { OpenInPart(s, pos, b, p); }
  }

  lemma OpenInPart(s: string, pos: nat, b: nat, p: nat)
    requires pos <= b <= |s| && FirstOpen(s[pos..b], 0, p)
    ensures p < b - pos && LiveChar(s, pos, '{', pos + p)
  {
    LiveIsAhead(s[pos..b], 0, false, p);
    LiveInPart(s, pos, b, 0, false, p);
  }

  /** The tail in which nothing is found. */
  lemma NothingInTail(s: string, pos: nat)
    requires pos <= |s| && forall p :: !IsPlaceholder(s, pos, p)
    ensures !HasPlaceholder(s[pos..])
  {
    hide Closes;
    var tail := s[pos..|s|];
    assert s[pos..] == tail;
    if open: nat, close: nat :| FirstOpen(tail, 0, open) && Closes(tail, open, close) {
      var p := InTail(s, pos, open, close);
    }
  }

  lemma InTail(s: string, pos: nat, open: nat, close: nat) returns (p: Placeholder)
    requires pos <= |s| && FirstOpen(s[pos..|s|], 0, open) && Closes(s[pos..|s|], open, close)
    ensures IsPlaceholder(s, pos, p)
  {
    hide Closes;
    var tail := s[pos..|s|];
    LiveIsAhead(tail, 0, false, open);
    OpenInTail(s, pos, open);
    CloseIsInside(tail, open, close);
    ClosesInPart(s, pos, |s|, open, close);
    var dollar := SomeDollar(s, pos + open);
    p := Placeholder(pos + open, pos + close, dollar);
  }

  lemma CloseIsInside(s: string, open: nat, close: nat)
    requires Closes(s, open, close)
    ensures open < close < |s|
  {}

  lemma OpenInTail(s: string, pos: nat, open: nat)
    requires pos <= |s| && FirstOpen(s[pos..|s|], 0, open)
    ensures FirstOpen(s, pos, pos + open)
  {
    var tail := s[pos..|s|];
    LiveIsAhead(tail, 0, false, open);
    LiveInPart(s, pos, |s|, 0, false, open);
    forall p | pos <= p < pos + open ensures !LiveChar(s, pos, '{', p) {
      if s[p] == '{' { LiveInPart(s, pos, |s|, 0, false, p - pos); assert !LiveChar(tail, 0, '{', p - pos); }
    }
  }

  lemma SomeDollar(s: string, open: nat) returns (dollar: Option<nat>)
    requires open <= |s|
    ensures DollarOf(s, open, dollar)
  {
    if i: nat :| i < open && s[i] == '$' && forall j :: i < j < open ==> Decimal.IsDigit(s[j]) {
      dollar := Some(i);
    } else {
      dollar := None;
    }
  }

  lemma HolderIsOne(s: string, open: nat, close: nat)
    requires open < close < |s| && Closes(s, open, close) && s[open] == '{' && s[close] == '}'
    ensures IsOnePlaceholder(s[open + 1..close])
  {
    hide Closes, Braced;
    BraceSlice(s, open, close);
    ClosesInPart(s, open, close + 1, 0, close - open);
  }

  /** So literals and placeholders are cut where the braces say, everywhere in the string. */
  lemma {:induction false} PiecesWellCut(s: string, pos: nat, indexed: bool)
    requires Boundary(s, pos)
    ensures WellCut(Pieces(s, pos, indexed))
    decreases |s| - pos
  {
    hide HasPlaceholder, IsOnePlaceholder, FirstOpen, Closes;
    match Found(s, pos) {
      case None =>
        forall p ensures !IsPlaceholder(s, pos, p) {}
        NothingInTail(s, pos);
      case Some(p) =>
        FoundIs(s, pos);
        PlaceholderFits(s, pos, p);
        NoOpenBefore(s, pos, p.open, StartOf(p, indexed));
        HolderIsOne(s, p.open, p.close);
        PiecesWellCut(s, p.close + 1, indexed);
        CutTwoMore(s[pos..StartOf(p, indexed)], HolderOf(s, p, indexed), Pieces(s, p.close + 1, indexed));
    }
  }

  lemma CutTwoMore(text: string, holder: Piece, rest: seq<Piece>)
    requires !HasPlaceholder(text) && WellCut(rest) && holder.Holder? && IsOnePlaceholder(holder.modifiers)
    requires holder.digits.Some? ==> AllDigits(holder.digits.value)
    ensures WellCut([Literal(text), holder] + rest)
  {
    hide HasPlaceholder, IsOnePlaceholder, AllDigits;
    var all := [Literal(text), holder] + rest;
    forall i | 2 <= i < |all| ensures all[i] == rest[i - 2] {}
  }

  /** A dollar and then nothing but digits, possibly none, up to the end. */
  ghost predicate EndsInIndex(text: string) { exists i :: 0 <= i < |text| && IndexFrom(text, i) }

  predicate IndexFrom(text: string, i: nat)
    requires i < |text|
  {
    text[i] == '$' && forall j :: i < j < |text| ==> Decimal.IsDigit(text[j])
  }

  /** Every placeholder has the index in front of it, if there is one. */
  ghost predicate IndexesTaken(pieces: seq<Piece>) {
    forall i :: 0 <= i < |pieces| && pieces[i].Holder? && pieces[i].digits.None? ==>
      i > 0 && pieces[i - 1].Literal? && !EndsInIndex(pieces[i - 1].text)
  }

  lemma {:induction false} IndexesAreTaken(s: string, pos: nat)
    requires Boundary(s, pos)
    ensures IndexesTaken(Pieces(s, pos, true))
    decreases |s| - pos
  {
    hide EndsInIndex, IsPlaceholder, DollarOf, IndexesTaken;
    match Found(s, pos) {
      case None => NoneTaken(s[pos..]);
      case Some(p) =>
        FoundIs(s, pos);
        PlaceholderFits(s, pos, p);
        if p.dollar.None? { NoIndexBefore(s, pos, p); }
        IndexesAreTaken(s, p.close + 1);
        TakenTwoMore(s[pos..StartOf(p, true)], HolderOf(s, p, true), Pieces(s, p.close + 1, true));
    }
  }

  lemma NoneTaken(text: string)
    ensures IndexesTaken([Literal(text)])
  {}

  lemma NoIndexBefore(s: string, pos: nat, p: Placeholder)
    requires IsPlaceholder(s, pos, p) && p.dollar == None && pos <= p.open <= |s|
    ensures !EndsInIndex(s[pos..p.open])
  {
    hide IsPlaceholder, IndexFrom;
    forall i | 0 <= i < |s[pos..p.open]| ensures !IndexFrom(s[pos..p.open], i) { NoIndexAt(s, pos, p, i); }
  }

  lemma NoIndexAt(s: string, pos: nat, p: Placeholder, i: nat)
    requires IsPlaceholder(s, pos, p) && p.dollar == None && pos <= p.open <= |s| && i < |s[pos..p.open]|
    ensures !IndexFrom(s[pos..p.open], i)
  {
    hide FirstOpen, Closes;
    var text := s[pos..p.open];
    if text[i] == '$' {
      assert s[pos + i] == '$';
      var j :| pos + i < j < p.open && j < |s| && !Decimal.IsDigit(s[j]);
      assert text[j - pos] == s[j];
    }
  }

  lemma TakenTwoMore(text: string, holder: Piece, rest: seq<Piece>)
    requires IndexesTaken(rest) && holder.Holder? && (holder.digits.None? ==> !EndsInIndex(text))
    ensures IndexesTaken([Literal(text), holder] + rest)
  {
    hide EndsInIndex;
    var all := [Literal(text), holder] + rest;
    forall i | 2 <= i < |all| ensures all[i] == rest[i - 2] {}
  }

  // ---------------------------------------------------------------------------------- Arguments

  predicate IsPlain(piece: Piece) { piece.Holder? && piece.digits.None? }

  /** How many of the first i pieces are placeholders without an index. */
  function Plain(pieces: seq<Piece>, i: nat): nat
    requires i <= |pieces|
  {
    if i == 0 then 0 else Plain(pieces, i - 1) + if IsPlain(pieces[i - 1]) then 1 else 0
  }

  /** An index that stoul does not take. */
  predicate IsBad(piece: Piece) { piece.Holder? && piece.digits.Some? && !IsNumber(piece.digits.value) }

  /** What piece i adds to the output of the indexed form: argument n - 1 where the index is n, the k-th argument at the
      k-th placeholder without an index, and nothing where there is no such argument. */
  function Shown(pieces: seq<Piece>, i: nat, count: nat, render: (nat, string) -> string): string
    requires i < |pieces| && !IsBad(pieces[i])
  {
    match pieces[i]
    case Literal(text) => Unescaped(text)
    case Holder(Some(digits), modifiers) =>
      if 1 <= Decimal.Value(digits) <= count then render(Decimal.Value(digits) - 1, modifiers) else ""
    case Holder(None, modifiers) => if Plain(pieces, i) < count then render(Plain(pieces, i), modifiers) else ""
  }

  /** What it adds in the sequential form: the placeholder itself where there is no such argument. */
  function ShownInTurn(pieces: seq<Piece>, i: nat, count: nat, render: (nat, string) -> string): string
    requires i < |pieces|
  {
    match pieces[i]
    case Literal(text) => Unescaped(text)
    case Holder(_, modifiers) =>
      if Plain(pieces, i) < count then render(Plain(pieces, i), modifiers) else "{" + modifiers + "}"
  }

  function AllShown(pieces: seq<Piece>, i: nat, count: nat, render: (nat, string) -> string): string
    requires i <= |pieces| && forall j :: i <= j < |pieces| ==> !IsBad(pieces[j])
    decreases |pieces| - i
  {
    if i == |pieces| then "" else Shown(pieces, i, count, render) + AllShown(pieces, i + 1, count, render)
  }

  function AllShownInTurn(pieces: seq<Piece>, i: nat, count: nat, render: (nat, string) -> string): string
    requires i <= |pieces|
    decreases |pieces| - i
  {
    if i == |pieces| then "" else ShownInTurn(pieces, i, count, render) + AllShownInTurn(pieces, i + 1, count, render)
  }

  /** The indexed form throws exactly when some index is no 64-bit number; otherwise its output is what the pieces show,
      each in its place. */
  lemma {:induction false} IndexedShows(pieces: seq<Piece>, i: nat, count: nat, render: (nat, string) -> string)
    requires WellCut(pieces) && i <= |pieces| && count <= MAX_ULONG
    ensures Indexed(pieces[i..], Plain(pieces, i), count, render) ==
            if exists j :: i <= j < |pieces| && IsBad(pieces[j]) then Throw
            else Ok(AllShown(pieces, i, count, render))
    decreases |pieces| - i
  {
    hide IsBad, Unescaped, WellCut, ArgumentOf, IsNumber;
    if i < |pieces| {
      assert pieces[i..][0] == pieces[i] && pieces[i..][1..] == pieces[i + 1..];
      IndexedShows(pieces, i + 1, count, render);
      OnePieceShown(pieces, i, count, render);
    }
  }

  lemma OnePieceShown(pieces: seq<Piece>, i: nat, count: nat, render: (nat, string) -> string)
    requires WellCut(pieces) && i < |pieces| && count <= MAX_ULONG
    ensures pieces[i].Holder? ==>
      var argument := ArgumentOf(pieces[i].digits, Plain(pieces, i));
      && (argument.Throw? <==> IsBad(pieces[i]))
      && (argument.Ok? ==>
            Rendered(argument.value, pieces[i].modifiers, count, render) == Shown(pieces, i, count, render))
    ensures pieces[i].Literal? ==> !IsBad(pieces[i])
  {
    hide HasPlaceholder, IsOnePlaceholder;
    if pieces[i].Holder? && pieces[i].digits.Some? { ArgumentIs(pieces[i].digits.value, Plain(pieces, i)); }
  }

  /** The output of the sequential form is what the pieces show, each in its place. */
  lemma {:induction false} SequentialShows(pieces: seq<Piece>, i: nat, count: nat, render: (nat, string) -> string)
    requires i <= |pieces| && forall j :: 0 <= j < |pieces| && pieces[j].Holder? ==> pieces[j].digits.None?
    ensures Sequential(pieces[i..], Plain(pieces, i), count, render) == AllShownInTurn(pieces, i, count, render)
    decreases |pieces| - i
  {
    hide Unescaped, Braced, ShownInTurn, Sequential;
    if i < |pieces| {
      assert pieces[i..][0] == pieces[i] && pieces[i..][1..] == pieces[i + 1..];
      SequentialShows(pieces, i + 1, count, render);
      OneInTurn(pieces[i..], Plain(pieces, i), count, render);
      TurnShown(pieces, i, count, render);
    } else {
      NoneInTurn(pieces[i..], Plain(pieces, i), count, render);
    }
  }

  /** What the sequential form adds for one piece when the next placeholder is number k. */
  function InTurn(piece: Piece, k: nat, count: nat, render: (nat, string) -> string): string {
    match piece
    case Literal(text) => Unescaped(text)
    case Holder(_, modifiers) => if k >= count then Braced(modifiers) else render(k, modifiers)
  }

  lemma OneInTurn(pieces: seq<Piece>, k: nat, count: nat, render: (nat, string) -> string)
    requires pieces != []
    ensures Sequential(pieces, k, count, render) ==
            InTurn(pieces[0], k, count, render) +
            Sequential(pieces[1..], if pieces[0].Holder? then k + 1 else k, count, render)
  {
    hide Unescaped, Braced;
  }

  lemma NoneInTurn(pieces: seq<Piece>, k: nat, count: nat, render: (nat, string) -> string)
    requires pieces == []
    ensures Sequential(pieces, k, count, render) == ""
  {}

  lemma TurnShown(pieces: seq<Piece>, i: nat, count: nat, render: (nat, string) -> string)
    requires i < |pieces|
    ensures InTurn(pieces[i], Plain(pieces, i), count, render) == ShownInTurn(pieces, i, count, render)
  {
    hide Unescaped, Plain;
  }

  lemma {:induction false} NoDigits(s: string, pos: nat)
    requires Boundary(s, pos)
    ensures forall j :: 0 <= j < |Pieces(s, pos, false)| && Pieces(s, pos, false)[j].Holder? ==>
      Pieces(s, pos, false)[j].digits.None?
    decreases |s| - pos
  {
    hide IsPlaceholder;
    match Found(s, pos) {
      case None =>
      case Some(p) =>
        FoundIs(s, pos);
        PlaceholderFits(s, pos, p);
        NoDigits(s, p.close + 1);
    }
  }

  /** Format, without the words of its two loops: cut the string, and show the pieces in their order. */
  lemma FormatShows(s: string, count: nat, render: (nat, string) -> string)
    requires count <= MAX_ULONG
    ensures var pieces := Pieces(s, 0, true);
            Indexed(pieces, 0, count, render) ==
              if exists j :: 0 <= j < |pieces| && IsBad(pieces[j]) then Throw
              else Ok(AllShown(pieces, 0, count, render))
    ensures var pieces := Pieces(s, 0, false);
            Sequential(pieces, 0, count, render) == AllShownInTurn(pieces, 0, count, render)
  {
    hide Pieces, Indexed, Sequential, WellCut, IsBad;
    var pieces, plain := Pieces(s, 0, true), Pieces(s, 0, false);
    PiecesWellCut(s, 0, true);
    NoDigits(s, 0);
    IndexedShows(pieces, 0, count, render);
    SequentialShows(plain, 0, count, render);
    assert pieces[0..] == pieces && plain[0..] == plain;
  }

  /** $n{modifiers}, wherever it stands, is argument n - 1 under the modifiers; an index of 0, or above the number of
      arguments, is nothing; a placeholder with an index does not count for those without. */
  lemma IndexNames(pieces: seq<Piece>, i: nat, n: nat, modifiers: string, count: nat, render: (nat, string) -> string)
    requires i < |pieces| && pieces[i] == Holder(Some(Decimal.Numeral(n)), modifiers) && count <= MAX_ULONG
    ensures IsBad(pieces[i]) <==> n > MAX_ULONG
    ensures 1 <= n <= count ==> Shown(pieces, i, count, render) == render(n - 1, modifiers)
    ensures n == 0 || count < n <= MAX_ULONG ==> Shown(pieces, i, count, render) == ""
    ensures Plain(pieces, i + 1) == Plain(pieces, i)
  {
    hide Decimal.Value;
    Decimal.ValueOfNumeral(n);
  }
}
