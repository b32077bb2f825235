/** Finding placeholders in a format string: quotes, escapes and nested braces. */
module FormatScan {
  import opened Common
  import Decimal

  // ---------------------------------------------------------------------------------- Live characters

  /** Scanning from i with the given quote state meets p outside quotes, and not as part of an escape. */
  predicate LiveFrom(s: string, i: nat, inQuote: bool, p: nat)
    decreases |s| - i
  {
    if i >= |s| then false
    else if s[i] == '\\' && i + 1 < |s| then LiveFrom(s, i + 2, inQuote, p)
    else if s[i] == '\'' then LiveFrom(s, i + 1, !inQuote, p)
    else (p == i && !inQuote) || LiveFrom(s, i + 1, inQuote, p)
  }

  /** A live occurrence of a character. */
  predicate LiveChar(s: string, from: nat, c: char, p: nat) { LiveFrom(s, from, false, p) && p < |s| && s[p] == c }

  lemma {:induction false} LiveIsAhead(s: string, i: nat, inQuote: bool, p: nat)
    requires LiveFrom(s, i, inQuote, p)
    ensures i <= p < |s|
    decreases |s| - i
  {
    if s[i] == '\\' && i + 1 < |s| { LiveIsAhead(s, i + 2, inQuote, p); }
    else if s[i] == '\'' { LiveIsAhead(s, i + 1, !inQuote, p); }
    else if !(p == i && !inQuote) { LiveIsAhead(s, i + 1, inQuote, p); }
  }

  /** Scanning again from just after a live character sees what the first scan sees. */
  lemma {:induction false} Rescan(s: string, i: nat, inQuote: bool, a: nat, p: nat)
    requires LiveFrom(s, i, inQuote, a) && p > a
    ensures LiveFrom(s, i, inQuote, p) <==> LiveFrom(s, a + 1, false, p)
    decreases |s| - i
  {
    LiveIsAhead(s, i, inQuote, a);
    if s[i] == '\\' && i + 1 < |s| { Rescan(s, i + 2, inQuote, a, p); }
    else if s[i] == '\'' { Rescan(s, i + 1, !inQuote, a, p); }
    else if !(a == i && !inQuote) { Rescan(s, i + 1, inQuote, a, p); }
    else if LiveFrom(s, i + 1, inQuote, p) {}
  }

  /** FindNext: the first live occurrence of a character that is no quote and no backslash. */
  method FindNext(s: string, c: char, pos: nat) returns (r: Option<nat>)
    requires c != '\\' && c != '\''
    ensures r.Some? ==> LiveChar(s, pos, c, r.value) && forall p :: pos <= p < r.value ==> !LiveChar(s, pos, c, p)
    ensures r.None? ==> forall p: nat :: !LiveChar(s, pos, c, p)
  {
    var inQuote := false;
    var i := pos;
    while i < |s|
      invariant pos <= i
      invariant forall p: nat :: LiveChar(s, pos, c, p) <==> LiveFrom(s, i, inQuote, p) && p < |s| && s[p] == c
    {
      if s[i] == '\\' && i + 1 < |s| {
        i := i + 2;
        continue;
      }
      if s[i] == '\'' {
        inQuote := !inQuote;
        i := i + 1;
        continue;
      }
      if s[i] == c && !inQuote {
        NothingBefore(s, pos, c, i, inQuote);
        return Some(i);
      }
      i := i + 1;
    }
    return None;
  }

  lemma NothingBefore(s: string, pos: nat, c: char, i: nat, inQuote: bool)
    requires forall p: nat :: LiveChar(s, pos, c, p) <==> LiveFrom(s, i, inQuote, p) && p < |s| && s[p] == c
    ensures forall p: nat :: p < i ==> !LiveChar(s, pos, c, p)
  {
    forall p: nat | p < i ensures !LiveChar(s, pos, c, p) {
      if LiveFrom(s, i, inQuote, p) { LiveIsAhead(s, i, inQuote, p); }
    }
  }

  // ---------------------------------------------------------------------------------- The depth counter

  /** How many live occurrences of a character a scan from `from` meets before p. */
  function Count(s: string, from: nat, c: char, p: nat): nat {
    if p == 0 then 0 else Count(s, from, c, p - 1) + if LiveChar(s, from, c, p - 1) then 1 else 0
  }

  /** The depth after the character at p, counting from an opening brace. */
  function Depth(s: string, open: nat, p: nat): int { Count(s, open, '{', p + 1) - Count(s, open, '}', p + 1) }

  lemma {:induction false} CountSame(s: string, from: nat, c: char, a: nat, b: nat)
    requires a <= b && forall p :: a <= p < b ==> !LiveChar(s, from, c, p)
    ensures Count(s, from, c, a) == Count(s, from, c, b)
  {
    if a < b { CountSame(s, from, c, a, b - 1); }
  }

  lemma {:induction false} CountGrows(s: string, from: nat, c: char, a: nat, b: nat)
    requires a <= b
    ensures Count(s, from, c, a) <= Count(s, from, c, b)
  {
    if a < b { CountGrows(s, from, c, a, b - 1); }
  }

  lemma {:induction false} NothingCounted(s: string, from: nat, c: char, p: nat)
    requires p <= from
    ensures Count(s, from, c, p) == 0
  {
    if p > 0 {
      NothingCounted(s, from, c, p - 1);
      if LiveFrom(s, from, false, p - 1) { LiveIsAhead(s, from, false, p - 1); }
    }
  }

  /** The first unquoted, unescaped opening brace at or after pos. */
  ghost predicate FirstOpen(s: string, pos: nat, open: nat) {
    LiveChar(s, pos, '{', open) && forall p :: pos <= p < open ==> !LiveChar(s, pos, '{', p)
  }

  /** The place where the depth first returns to zero. */
  ghost predicate Closes(s: string, open: nat, close: nat) {
    open < close < |s| && Depth(s, open, close) == 0 && forall p :: open <= p < close ==> Depth(s, open, p) > 0
  }

  /** The dollar of "$digits{", if the digits before the brace are preceded by one. */
  ghost predicate DollarOf(s: string, open: nat, dollar: Option<nat>) {
    if dollar.Some? then dollar.value < open <= |s| && s[dollar.value] == '$' && forall j :: dollar.value < j < open ==>
      Decimal.IsDigit(s[j])
    else
      forall i :: 0 <= i < open && i < |s| && s[i] == '$' ==>
        exists j :: i < j < open && j < |s| && !Decimal.IsDigit(s[j])
  }

  datatype Placeholder = Placeholder(open: nat, close: nat, dollar: Option<nat>)

  // ---------------------------------------------------------------------------------- The two pointers

  /** The k-th opening and the k-th closing brace from an opening brace on, with depth above zero up to the closing
      one. */
  ghost predicate Paired(s: string, open: nat, cur: nat, end: nat, k: nat) {
    && open <= cur < end < |s| && LiveChar(s, open, '{', cur) && LiveChar(s, open, '}', end)
    && Count(s, open, '{', cur + 1) == k && Count(s, open, '}', end) == k - 1 && k > 0
    && forall p :: open <= p < end ==> Depth(s, open, p) > 0
  }

  /** A search that starts after a live character of the scan finds the next live one of the scan. */
  lemma NextFound(s: string, open: nat, c: char, a: nat, from: nat, r: Option<nat>)
    requires LiveFrom(s, open, false, a) && from == a + 1
    requires r.Some? ==> LiveChar(s, from, c, r.value) && forall p :: from <= p < r.value ==> !LiveChar(s, from, c, p)
    requires r.None? ==> forall p: nat :: !LiveChar(s, from, c, p)
    ensures r.Some? ==> a < r.value && LiveChar(s, open, c, r.value)
    ensures r.Some? ==> Count(s, open, c, r.value) == Count(s, open, c, a + 1)
    ensures r.None? ==> forall p: nat :: p > a ==> Count(s, open, c, p) == Count(s, open, c, a + 1)
  {
    hide LiveFrom, Count;
    forall p: nat | p > a ensures LiveChar(s, open, c, p) <==> LiveChar(s, from, c, p) { Rescan(s, open, false, a, p); }
    if r.Some? {
      LiveIsAhead(s, from, false, r.value);
      CountSame(s, open, c, from, r.value);
    } else {
      forall p: nat | p > a ensures Count(s, open, c, p) == Count(s, open, c, from) { CountSame(s, open, c, from, p); }
    }
  }

  lemma FirstPair(s: string, open: nat, end: nat)
    requires LiveChar(s, open, '{', open) && open < end && LiveChar(s, open, '}', end)
    requires Count(s, open, '}', end) == Count(s, open, '}', open + 1)
    ensures Paired(s, open, open, end, 1)
  {
    NothingCounted(s, open, '{', open);
    NothingCounted(s, open, '}', open);
    LiveIsAhead(s, open, false, end);
    forall p | open <= p < end ensures Depth(s, open, p) > 0 {
      CountGrows(s, open, '{', open + 1, p + 1);
      CountGrows(s, open, '}', p + 1, end);
    }
  }

  lemma NextPair(s: string, open: nat, cur: nat, end: nat, k: nat, cur2: nat, end2: nat)
    requires Paired(s, open, cur, end, k) && cur < cur2 < end && LiveChar(s, open, '{', cur2)
    requires Count(s, open, '{', cur2) == Count(s, open, '{', cur + 1)
    requires end < end2 && LiveChar(s, open, '}', end2) && Count(s, open, '}', end2) == Count(s, open, '}', end + 1)
    ensures Paired(s, open, cur2, end2, k + 1)
  {
    LiveIsAhead(s, open, false, end2);
    forall p | open <= p < end2 ensures Depth(s, open, p) > 0 {
      if p >= end {
        CountGrows(s, open, '{', cur2 + 1, p + 1);
        CountGrows(s, open, '}', p + 1, end2);
      }
    }
  }

  /** No further opening brace before the closing one: the depth is zero there. */
  lemma PairCloses(s: string, open: nat, cur: nat, end: nat, k: nat)
    requires Paired(s, open, cur, end, k) && Count(s, open, '{', end + 1) == Count(s, open, '{', cur + 1)
    ensures Closes(s, open, end)
  {}

  /** No further closing brace: the depth stays above zero. */
  lemma NeverCloses(s: string, open: nat, cur: nat, end: nat, k: nat, cur2: nat)
    requires Paired(s, open, cur, end, k) && cur < cur2 < end && LiveChar(s, open, '{', cur2)
    requires Count(s, open, '{', cur2) == Count(s, open, '{', cur + 1)
    requires forall p: nat :: p > end ==> Count(s, open, '}', p) == Count(s, open, '}', end + 1)
    ensures forall p: nat :: open <= p ==> Depth(s, open, p) > 0
  {
    forall p: nat | open <= p ensures Depth(s, open, p) > 0 {
      if p >= end { CountGrows(s, open, '{', cur2 + 1, p + 1); }
    }
  }

  lemma NoClosingBrace(s: string, open: nat)
    requires LiveChar(s, open, '{', open)
    requires forall p: nat :: p > open ==> Count(s, open, '}', p) == Count(s, open, '}', open + 1)
    ensures forall p: nat :: open <= p ==> Depth(s, open, p) > 0
  {
    NothingCounted(s, open, '{', open);
    NothingCounted(s, open, '}', open);
    forall p: nat | open <= p ensures Depth(s, open, p) > 0 { CountGrows(s, open, '{', open + 1, p + 1); }
  }

  /** The digits before a brace, and the dollar before them. */
  method FindDollar(s: string, open: nat) returns (dollar: Option<nat>)
    requires open < |s|
    ensures DollarOf(s, open, dollar)
  {
    var i: int := open - 1;
    while i >= 0 && Decimal.IsDigit(s[i])
      invariant -1 <= i < open && forall j :: i < j < open ==> Decimal.IsDigit(s[j])
    {
      i := i - 1;
    }
    if i >= 0 && s[i] == '$' { return Some(i); }
    return None;
  }

  /** FindPlaceHolder: the first live opening brace and the brace that closes it, if there are both; nothing exactly
      when there is no such pair. */
  method FindPlaceHolder(s: string, pos: nat) returns (r: Option<Placeholder>)
    ensures r.Some? ==>
      FirstOpen(s, pos, r.value.open) && Closes(s, r.value.open, r.value.close)
        && DollarOf(s, r.value.open, r.value.dollar)
    ensures r.None? ==> forall open, close :: FirstOpen(s, pos, open) ==> !Closes(s, open, close)
  {
    hide LiveFrom, Count;
    var first := FindNext(s, '{', pos);
    if first.None? { return None; }
    var begin := first.value;
    LiveAlone(s, pos, begin);
    var cur := begin;
    var end := FindNext(s, '}', begin);
    SkipOpen(s, begin, begin + 1);
    NextFound(s, begin, '}', begin, begin + 1, end);
    if end.None? {
      NoClosingBrace(s, begin);
      NoPair(s, pos, begin);
      return None;
    }
    FirstPair(s, begin, end.value);
    ghost var k := 1;
    while true
      invariant end.Some? && Paired(s, begin, cur, end.value, k)
      decreases |s| - cur
    {
      var next := FindNext(s, '{', cur + 1);
      NextFound(s, begin, '{', cur, cur + 1, next);
      if next.None? || next.value > end.value {
        SameUpTo(s, begin, '{', cur, next, end.value);
        PairCloses(s, begin, cur, end.value, k);
        var dollar := FindDollar(s, begin);
        return Some(Placeholder(begin, end.value, dollar));
      }
      var last := end.value;
      end := FindNext(s, '}', last + 1);
      NextFound(s, begin, '}', last, last + 1, end);
      if end.None? {
        NeverCloses(s, begin, cur, last, k, next.value);
        NoPair(s, pos, begin);
        return None;
      }
      NextPair(s, begin, cur, last, k, next.value, end.value);
      cur, k := next.value, k + 1;
    }
  }

  /** A live opening brace is live for a scan that starts at it. */
  lemma LiveAlone(s: string, pos: nat, open: nat)
    requires LiveChar(s, pos, '{', open)
    ensures LiveChar(s, open, '{', open) && pos <= open < |s|
  {
    LiveIsAhead(s, pos, false, open);
  }

  lemma SkipOpen(s: string, open: nat, next: nat)
    requires open < |s| && s[open] == '{' && next == open + 1
    ensures forall p: nat :: LiveChar(s, open, '}', p) <==> LiveChar(s, next, '}', p)
  {}

  /** A pair whose depth never returns to zero is no pair. */
  lemma NoPair(s: string, pos: nat, begin: nat)
    requires FirstOpen(s, pos, begin) && forall p: nat :: begin <= p ==> Depth(s, begin, p) > 0
    ensures forall open, close :: FirstOpen(s, pos, open) ==> !Closes(s, open, close)
  {
    hide Depth;
    forall open, close | FirstOpen(s, pos, open) ensures !Closes(s, open, close) {
      LiveIsAhead(s, pos, false, open);
      LiveIsAhead(s, pos, false, begin);
      assert open == begin;
    }
  }

  lemma SameUpTo(s: string, open: nat, c: char, cur: nat, next: Option<nat>, end: nat)
    requires cur < end && (next.Some? ==> end < next.value)
    requires next.Some? ==> Count(s, open, c, next.value) == Count(s, open, c, cur + 1)
    requires next.None? ==> forall p: nat :: p > cur ==> Count(s, open, c, p) == Count(s, open, c, cur + 1)
    ensures Count(s, open, c, end + 1) == Count(s, open, c, cur + 1)
  {
    if next.Some? {
      CountGrows(s, open, c, cur + 1, end + 1);
      CountGrows(s, open, c, end + 1, next.value);
    }
  }
}
