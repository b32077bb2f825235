/**
 A reader for whole SQL statements as they are printed: it finds the table, the columns, rows and pairs, and every
 optional part of an UPDATE, a DELETE, an INSERT or a SELECT behind its own keyword.
 */
module SqlStatements {
  import opened Common
  import opened SqlTree
  import opened SqlReader

  // ---------------------------------------------------------------------------------- The reader

  /** A table, by the numbers in its name. */
  function ReadTable(s: string): (r: Option<(Path, string)>)
    ensures r.Some? ==> |r.value.1| < |s|
  {
    match After("t_", s)
    case None => None
    case Some(s1) => Some(ReadPath(s1))
  }

  /** A keyword and a clause, or neither. */
  function ReadPart(keyword: string, s: string): (r: (Clause, string))
    ensures |r.1| <= |s|
  {
    match After(keyword, s)
    case None => (Null, s)
    case Some(s1) =>
      match ReadClause(s1)
      case Some((c, rest)) => (c, rest)
      case None => (Null, s)
  }

  /** Pairs "column = value" separated by commas. */
  function ReadPairs(s: string): (r: (seq<Assignment>, string))
    ensures |r.1| <= |s|
    decreases |s|
  {
    match ReadPair(s)
    case None => ([], s)
    case Some((pair, s1)) =>
      match After(", ", s1)
      case None => ([pair], s1)
      case Some(s2) =>
        var (pairs, rest) := ReadPairs(s2);
        ([pair] + pairs, rest)
  }

  function ReadPair(s: string): (r: Option<(Assignment, string)>)
    ensures r.Some? ==> |r.value.1| < |s|
  {
    match ReadThen(s, " = ")
    case None => None
    case Some((target, s1)) =>
      match ReadClause(s1)
      case None => None
      case Some((value, rest)) => Some((Assignment(target, value), rest))
  }

  /** Clauses separated by commas, at least one. */
  function ReadItems(s: string): (r: Option<(seq<Clause>, string)>)
    ensures r.Some? ==> |r.value.1| < |s|
    decreases |s|
  {
    match ReadClause(s)
    case None => None
    case Some((c, s1)) =>
      match After(", ", s1)
      case None => Some(([c], s1))
      case Some(s2) =>
        match ReadItems(s2)
        case None => None
        case Some((cs, rest)) => Some(([c] + cs, rest))
  }

  /** A row of VALUES in its parentheses. */
  function ReadRow(s: string): (r: Option<(Row, string)>)
    ensures r.Some? ==> |r.value.1| < |s|
  {
    match After("(", s)
    case None => None
    case Some(s1) =>
      match After(")", s1)
      case Some(rest) => Some((Row([]), rest))
      case None =>
        match ReadArguments(s1)
        case None => None
        case Some((cells, rest)) => Some((Row(cells), rest))
  }

  function ReadRows(s: string): (r: Option<(seq<Row>, string)>)
    ensures r.Some? ==> |r.value.1| < |s|
    decreases |s|
  {
    match ReadRow(s)
    case None => None
    case Some((row, s1)) =>
      match After(", ", s1)
      case None => Some(([row], s1))
      case Some(s2) =>
        match ReadRows(s2)
        case None => None
        case Some((rows, rest)) => Some(([row] + rows, rest))
  }

  function ReadUpdate(s: string): Option<(Clause, string)> {
    match ReadTable(s)
    case None => None
    case Some((table, s1)) =>
      match After(" SET ", s1)
      case None => None
      case Some(s2) =>
        var (sets, s3) := ReadPairs(s2);
        var (where, rest) := ReadPart(" WHERE ", s3);
        Some((Update(table, sets, where), rest))
  }

  function ReadDelete(s: string): Option<(Clause, string)> {
    match ReadTable(s)
    case None => None
    case Some((table, s1)) =>
      var (where, rest) := ReadPart(" WHERE ", s1);
      Some((Delete(table, where), rest))
  }

  /** The column list of an INSERT, with the space behind it; none if there is none. */
  function ReadColumns(s: string): (seq<Clause>, string) {
    match After("(", s)
    case None => ([], s)
    case Some(s1) =>
      match ReadArguments(s1)
      case None => ([], s)
      case Some((columns, s2)) =>
        match After(" ", s2)
        case None => ([], s)
        case Some(rest) => (columns, rest)
  }

  /** Whether there are values, and the rows. */
  function ReadValues(s: string): (bool, seq<Row>, string) {
    match After("DEFAULT VALUES", s)
    case Some(rest) => (true, [], rest)
    case None =>
      match After("VALUES ", s)
      case None => (false, [], s)
      case Some(s1) =>
        match ReadRows(s1)
        case None => (false, [], s)
        case Some((rows, rest)) => (true, rows, rest)
  }

  function ReadInsert(s: string): Option<(Clause, string)> {
    match ReadTable(s)
    case None => None
    case Some((table, s1)) =>
      match After(" ", s1)
      case None => None
      case Some(s2) =>
        var (columns, s3) := ReadColumns(s2);
        var (isValues, rows, s4) := ReadValues(s3);
        match After(" ON CONFLICT DO UPDATE SET ", s4)
        case None => Some((Insert(table, columns, isValues, rows, false, []), s4))
        case Some(s5) =>
          var (pairs, rest) := ReadPairs(s5);
          Some((Insert(table, columns, isValues, rows, true, pairs), rest))
  }

  /** FROM and a table, or nothing. */
  function ReadFrom(s: string): (Clause, string) {
    match After(" FROM ", s)
    case None => (Null, s)
    case Some(s1) =>
      match ReadTable(s1)
      case None => (Null, s)
      case Some((table, rest)) => (Table(table), rest)
  }

  function ReadJoinKeyword(s: string): (r: Option<(JoinType, string)>)
    ensures r.Some? ==> |r.value.1| < |s|
  {
    match After(" LEFT JOIN ", s)
    case Some(rest) => Some((LeftJoin, rest))
    case None =>
      match After(" INNER JOIN ", s)
      case Some(rest) => Some((InnerJoin, rest))
      case None =>
        match After(" LEFT OUTER JOIN ", s)
        case Some(rest) => Some((ExclusiveLeftJoin, rest))
        case None => None
  }

  /** A join: its kind, its table, and ON with a condition or nothing behind the space. */
  function ReadJoin(s: string): (r: Option<(Clause, string)>)
    ensures r.Some? ==> |r.value.1| < |s|
  {
    match ReadJoinKeyword(s)
    case None => None
    case Some((joinType, s1)) =>
      match ReadTable(s1)
      case None => None
      case Some((table, s2)) =>
        match After(" ", s2)
        case None => None
        case Some(s3) =>
          var (on, rest) := ReadPart("ON ", s3);
          Some((Join(joinType, table, on), rest))
  }

  function ReadJoins(s: string): (r: (seq<Clause>, string))
    ensures |r.1| <= |s|
    decreases |s|
  {
    match ReadJoin(s)
    case None => ([], s)
    case Some((join, s1)) =>
      var (joins, rest) := ReadJoins(s1);
      ([join] + joins, rest)
  }

  function ReadSelect(s: string): Option<(Clause, string)> {
    match ReadItems(s)
    case None => None
    case Some((selectors, s1)) =>
      var (from, s2) := ReadFrom(s1);
      var (joins, s3) := ReadJoins(s2);
      var (where, s4) := ReadPart(" WHERE ", s3);
      var (groupBy, s5) := ReadPart(" GROUP BY ", s4);
      var (having, s6) := ReadPart(" HAVING ", s5);
      var (orderBy, s7) := ReadPart(" ORDER BY ", s6);
      var (limit, rest) := ReadPart(" LIMIT ", s7);
      Some((Select(selectors, from, joins, where, groupBy, having, orderBy, limit), rest))
  }

  function ReadTruncate(s: string): Option<(Clause, string)> {
    match ReadTable(s) case Some((table, rest)) => Some((Truncate(table), rest)) case None => None
  }

  /** A statement, by its first keyword. */
  function ReadStatement(s: string): Option<(Clause, string)> {
    match After("UPDATE ", s)
    case Some(s1) => ReadUpdate(s1)
    case None =>
      match After("DELETE FROM ", s)
      case Some(s1) => ReadDelete(s1)
      case None =>
        match After("INSERT INTO ", s)
        case Some(s1) => ReadInsert(s1)
        case None =>
          match After("SELECT ", s)
          case Some(s1) => ReadSelect(s1)
          case None =>
            match After("TRUNCATE TABLE ", s)
            case Some(s1) => ReadTruncate(s1)
            case None => ReadTransaction(s)
  }

  function ReadTransaction(s: string): Option<(Clause, string)> {
    match After("BEGIN READ ONLY", s)
    case Some(rest) => Some((StartTransaction(true), rest))
    case None =>
      match After("BEGIN", s)
      case Some(rest) => Some((StartTransaction(false), rest))
      case None =>
        match After("COMMIT", s)
        case Some(rest) => Some((CommitTransaction, rest))
        case None =>
          match After("ROLLBACK", s)
          case Some(rest) => Some((RollbackTransaction, rest))
          case None => None
  }

  // ---------------------------------------------------------------------------------- Statements

  /** A clause that is missing or can be read. */
  predicate ReadableOrNull(c: Clause) { c == Null || Readable(c) }

  predicate ReadablePairs(pairs: seq<Assignment>) {
    forall i :: 0 <= i < |pairs| ==> Readable(pairs[i].target) && Readable(pairs[i].value)
  }

  predicate ReadableAll(cs: seq<Clause>) { forall i :: 0 <= i < |cs| ==> Readable(cs[i]) }

  predicate ReadableRows(rows: seq<Row>) { forall i :: 0 <= i < |rows| ==> ReadableAll(rows[i].cells) }

  predicate ReadableJoins(tables: map<Path, Path>, joins: seq<Clause>) {
    forall i :: 0 <= i < |joins| ==> joins[i].Join? && joins[i].joined in tables && ReadableOrNull(joins[i].on)
  }

  /** A statement over registered tables, its clauses literals, columns and expressions. */
  predicate ReadableStatement(tables: map<Path, Path>, c: Clause) {
    match c
    case Update(updated, sets, where) => updated in tables && ReadablePairs(sets) && ReadableOrNull(where)
    case Delete(deleted, where) => deleted in tables && ReadableOrNull(where)
    case Insert(_, columns, isValues, rows, isDoUpdate, doUpdate) =>
      ReadableAll(columns) && (isValues ==> ReadableRows(rows)) && (isDoUpdate ==> ReadablePairs(doUpdate))
    case Select(selectors, from, joins, where, groupBy, having, orderBy, limit) =>
      && ReadableAll(selectors) && (from == Null || (from.Table? && from.table in tables))
      && ReadableJoins(tables, joins)
      && ReadableOrNull(where) && ReadableOrNull(groupBy) && ReadableOrNull(having) && ReadableOrNull(orderBy)
      && ReadableOrNull(limit)
    case Truncate(truncated) => truncated in tables
    case StartTransaction(_) => true
    case CommitTransaction => true
    case RollbackTransaction => true
    case _ => false
  }

  function CanonicalPairs(pairs: seq<Assignment>): (r: seq<Assignment>)
    ensures |r| == |pairs|
    ensures forall i :: 0 <= i < |pairs| ==>
      r[i] == Assignment(Canonical(pairs[i].target), Canonical(pairs[i].value))
  {
    if pairs == [] then []
    else [Assignment(Canonical(pairs[0].target), Canonical(pairs[0].value))] + CanonicalPairs(pairs[1..])
  }

  function CanonicalRows(rows: seq<Row>): (r: seq<Row>)
    ensures |r| == |rows| && forall i :: 0 <= i < |rows| ==> r[i] == Row(CanonicalAll(rows[i].cells))
  {
    if rows == [] then [] else [Row(CanonicalAll(rows[0].cells))] + CanonicalRows(rows[1..])
  }

  function CanonicalJoins(tables: map<Path, Path>, joins: seq<Clause>): (r: seq<Clause>)
    requires ReadableJoins(tables, joins)
    ensures |r| == |joins|
  {
    if joins == [] then []
    else
      [Join(joins[0].joinType, tables[joins[0].joined], Canonical(joins[0].on))] + CanonicalJoins(tables, joins[1..])
  }

  /** The statement with what its text shows: the registered tables, canonical clauses, "*" for no selectors, and no
      rows or pairs that are not printed. */
  function Printed(tables: map<Path, Path>, c: Clause): Clause
    requires ReadableStatement(tables, c)
  {
    match c
    case Update(updated, sets, where) => Update(tables[updated], CanonicalPairs(sets), Canonical(where))
    case Delete(deleted, where) => Delete(tables[deleted], Canonical(where))
    case Insert(into, columns, isValues, rows, isDoUpdate, doUpdate) =>
      Insert(into, CanonicalAll(columns), isValues, if isValues then CanonicalRows(rows) else [], isDoUpdate,
             if isDoUpdate then CanonicalPairs(doUpdate) else [])
    case Select(selectors, from, joins, where, groupBy, having, orderBy, limit) =>
      Select(if selectors == [] then [All] else CanonicalAll(selectors),
             if from.Table? then Table(tables[from.table]) else Null, CanonicalJoins(tables, joins),
             Canonical(where), Canonical(groupBy), Canonical(having), Canonical(orderBy), Canonical(limit))
    case Truncate(truncated) => Truncate(tables[truncated])
    case _ => c
  }

  // ---------------------------------------------------------------------------------- What can follow

  /** The keywords of the optional parts, in the order in which they can follow one another. */
  function Keyword(k: nat): string {
    if k == 0 then " WHERE "
    else if k == 1 then " GROUP BY "
    else if k == 2 then " HAVING "
    else if k == 3 then " ORDER BY "
    else if k == 4 then " LIMIT "
    else " ON CONFLICT DO UPDATE SET "
  }

  /** The end of the text, or a keyword from the k-th on. */
  ghost predicate Follows(tail: string, k: nat) { tail == "" || exists j :: k <= j <= 5 && Keyword(j) <= tail }

  lemma KeywordsEnd(k: nat)
    ensures EndsPlainly(Keyword(k))
  {}

  /** The letters that tell the keywords apart. */
  lemma KeywordLetters(k: nat)
    ensures |Keyword(k)| >= 7 && Keyword(k)[0] == ' '
    ensures Keyword(k)[1] == 'W' <==> k == 0
    ensures Keyword(k)[1] == 'G' <==> k == 1
    ensures Keyword(k)[1] == 'H' <==> k == 2
    ensures Keyword(k)[1] == 'O' <==> k == 3 || k >= 5
    ensures Keyword(k)[1] == 'L' <==> k == 4
    ensures k == 3 ==> Keyword(k)[2] == 'R'
    ensures k == 4 ==> Keyword(k)[2] == 'I'
    ensures k >= 5 ==> Keyword(k)[2] == 'N'
    ensures Keyword(k)[1] != 'F' && Keyword(k)[1] != 'I'
  {}

  lemma Starting(prefix: string, s: string)
    requires prefix <= s
    ensures s == prefix + s[|prefix|..] && forall i :: 0 <= i < |prefix| ==> s[i] == prefix[i]
  {}

  /** Nothing that follows goes on with a clause, a list, an earlier part, FROM or a join. */
  lemma FollowsNothing(tail: string, k: nat)
    requires Follows(tail, k)
    ensures Ends(tail) && After(", ", tail) == None && After(" FROM ", tail) == None && ReadJoinKeyword(tail) == None
    ensures forall i :: 0 <= i < k && i <= 5 ==> After(Keyword(i), tail) == None
    ensures tail == "" || tail[0] == ' '
  {
    hide Ends, EndsPlainly, Keyword;
    if tail == "" {
      NothingEnds();
      forall i: nat ensures After(Keyword(i), tail) == None { KeywordLetters(i); }
    } else {
      var j :| k <= j <= 5 && Keyword(j) <= tail;
      KeywordLetters(j);
      Starting(Keyword(j), tail);
      KeywordsEnd(j);
      PlainEnds(Keyword(j), tail[|Keyword(j)|..]);
      NotAfter(", ", tail, 0);
      NotAfter(" FROM ", tail, 1);
      NoJoin(tail);
      forall i | 0 <= i < k && i <= 5 ensures After(Keyword(i), tail) == None {
        KeywordLetters(i);
        NotAfter(Keyword(i), tail, if Keyword(i)[1] == Keyword(j)[1] then 2 else 1);
      }
    }
  }

  /** A text with another letter somewhere does not start with the prefix. */
  lemma NotAfter(prefix: string, s: string, at: nat)
    requires at < |prefix| && at < |s| && prefix[at] != s[at]
    ensures After(prefix, s) == None
  {}

  lemma NoJoin(s: string)
    requires |s| >= 3 && s[1] != 'I' && (s[1] == 'L' ==> s[2] != 'E')
    ensures ReadJoinKeyword(s) == None
  {
    if s[1] == 'L' {
      NotAfter(" LEFT JOIN ", s, 2);
      NotAfter(" LEFT OUTER JOIN ", s, 2);
    } else {
      NotAfter(" LEFT JOIN ", s, 1);
      NotAfter(" LEFT OUTER JOIN ", s, 1);
    }
    NotAfter(" INNER JOIN ", s, 1);
  }

  lemma NoClause(s: string)
    requires s == "" || s[0] == ' '
    ensures ReadClause(s) == None
  {
    assert After("NOT ", s) == None;
  }

  /** The text of an optional part. */
  function PartText(keyword: string, c: Clause, text: string): string { if c == Null then "" else keyword + text }

  lemma PartReads(k: nat, c: Clause, text: string, tail: string)
    requires k <= 5 && Follows(tail, k + 1) && (c != Null ==> Reads(text, c))
    ensures ReadPart(Keyword(k), PartText(Keyword(k), c, text) + tail) == (c, tail)
    ensures Follows(PartText(Keyword(k), c, text) + tail, k)
  {
    hide ReadClause, Ends, Reads, Keyword;
    FollowsNothing(tail, k + 1);
    if c == Null {
      assert PartText(Keyword(k), c, text) + tail == tail;
    } else {
      assert PartText(Keyword(k), c, text) + tail == Keyword(k) + (text + tail);
      Cut(Keyword(k), text + tail);
      ReadsAt(text, c, tail);
      KeywordLetters(k);
    }
  }

  // ---------------------------------------------------------------------------------- Lists

  lemma {:induction false} ItemsRead(texts: seq<string>, cs: seq<Clause>, tail: string)
    requires |texts| == |cs| > 0 && forall i :: 0 <= i < |cs| ==> Reads(texts[i], cs[i])
    requires Ends(tail) && After(", ", tail) == None
    ensures ReadItems(JoinTexts(texts, ", ") + tail) == Some((cs, tail))
  {
    hide ReadClause, Ends, EndsPlainly, Reads;
    if |texts| == 1 {
      ReadsAt(texts[0], cs[0], tail);
      assert cs == [cs[0]];
    } else {
      var more := JoinTexts(texts[1..], ", ") + tail;
      ItemsRead(texts[1..], cs[1..], tail);
      assert JoinTexts(texts, ", ") + tail == texts[0] + (", " + more);
      CommaEnds();
      PlainEnds(", ", more);
      ReadsAt(texts[0], cs[0], ", " + more);
      Cut(", ", more);
      assert cs == [cs[0]] + cs[1..];
    }
  }

  /** The texts of a pair. */
  ghost predicate PairReads(text: string, pair: Assignment) {
    exists left, right :: text == left + " = " + right && Reads(left, pair.target) && Reads(right, pair.value)
  }

  lemma EqualsEnds()
    ensures EndsPlainly(" = ")
  {}

  lemma OnePairReads(text: string, pair: Assignment, tail: string)
    requires PairReads(text, pair) && Ends(tail)
    ensures ReadPair(text + tail) == Some((pair, tail))
  {
    hide ReadClause, Ends, EndsPlainly, Reads;
    var left, right :| text == left + " = " + right && Reads(left, pair.target) && Reads(right, pair.value);
    EqualsEnds();
    assert text + tail == left + (" = " + (right + tail));
    ThenReads(left, pair.target, " = ", right + tail);
    ReadsAt(right, pair.value, tail);
  }

  lemma {:induction false} PairsRead(texts: seq<string>, pairs: seq<Assignment>, tail: string)
    requires |texts| == |pairs| && forall i :: 0 <= i < |pairs| ==> PairReads(texts[i], pairs[i])
    requires Ends(tail) && After(", ", tail) == None && (tail == "" || tail[0] == ' ')
    ensures ReadPairs(JoinTexts(texts, ", ") + tail) == (pairs, tail)
  {
    hide ReadPair, Ends, EndsPlainly, PairReads, Reads;
    if texts == [] {
      assert "" + tail == tail;
      NoPair(tail);
    } else if |texts| == 1 {
      OnePairReads(texts[0], pairs[0], tail);
      assert pairs == [pairs[0]];
    } else {
      var more := JoinTexts(texts[1..], ", ") + tail;
      PairsRead(texts[1..], pairs[1..], tail);
      assert JoinTexts(texts, ", ") + tail == texts[0] + (", " + more);
      CommaEnds();
      PlainEnds(", ", more);
      OnePairReads(texts[0], pairs[0], ", " + more);
      Cut(", ", more);
      assert pairs == [pairs[0]] + pairs[1..];
    }
  }

  lemma NoPair(s: string)
    requires s == "" || s[0] == ' '
    ensures ReadPair(s) == None
  {
    hide ReadClause;
    NoClause(s);
  }

  ghost predicate RowReads(text: string, row: Row) {
    exists texts: seq<string> ::
      && text == "(" + JoinTexts(texts, ", ") + ")" && |texts| == |row.cells|
      && forall i :: 0 <= i < |texts| ==> Reads(texts[i], row.cells[i])
  }

  lemma OneRowReads(text: string, row: Row, tail: string)
    requires RowReads(text, row)
    ensures ReadRow(text + tail) == Some((row, tail))
  {
    hide ReadClause, Reads, ReadArguments;
    var texts: seq<string> :| text == "(" + JoinTexts(texts, ", ") + ")" && |texts| == |row.cells| &&
      forall i :: 0 <= i < |texts| ==> Reads(texts[i], row.cells[i]);
    var inside := JoinTexts(texts, ", ") + (")" + tail);
    assert text + tail == "(" + inside;
    Cut("(", inside);
    if texts == [] {
      assert inside == ")" + tail;
      Cut(")", tail);
      assert row == Row([]);
    } else {
      ArgumentsRead(texts, row.cells, tail);
      NoParenFirst(inside);
    }
  }

  /** Where arguments can be read there is no closing parenthesis first. */
  lemma NoParenFirst(s: string)
    requires ReadArguments(s).Some?
    ensures After(")", s) == None
  {
    if s != "" && s[0] == ')' { NoClauseAtParen(s); }
  }

  lemma NoClauseAtParen(s: string)
    requires s != "" && s[0] == ')'
    ensures ReadClause(s) == None
  {
    assert After("NOT ", s) == None;
  }

  lemma {:induction false} RowsRead(texts: seq<string>, rows: seq<Row>, tail: string)
    requires |texts| == |rows| > 0 && forall i :: 0 <= i < |rows| ==> RowReads(texts[i], rows[i])
    requires After(", ", tail) == None
    ensures ReadRows(JoinTexts(texts, ", ") + tail) == Some((rows, tail))
  {
    hide ReadRow, RowReads;
    if |texts| == 1 {
      OneRowReads(texts[0], rows[0], tail);
      assert rows == [rows[0]];
    } else {
      var more := JoinTexts(texts[1..], ", ") + tail;
      RowsRead(texts[1..], rows[1..], tail);
      assert JoinTexts(texts, ", ") + tail == texts[0] + (", " + more);
      OneRowReads(texts[0], rows[0], ", " + more);
      Cut(", ", more);
      assert rows == [rows[0]] + rows[1..];
    }
  }

  lemma TableReads(path: Path, tail: string)
    requires Delimited(tail)
    ensures ReadTable(TableText(path) + tail) == Some((path, tail))
  {
    hide PathText, ReadPath;
    assert TableText(path) + tail == "t_" + (PathText(path) + tail);
    Cut("t_", PathText(path) + tail);
    PathReads(path, tail);
  }

  // ---------------------------------------------------------------------------------- The texts of the parts

  function TextOr(tables: map<Path, Path>, c: Clause, parent: ClauseKind): string {
    match Text(tables, c, Some(parent)) case Ok(text) => text case Throw => ""
  }

  lemma CanonicalIsThere(c: Clause)
    requires ReadableOrNull(c)
    ensures Canonical(c) == Null <==> c == Null
  {}

  lemma PartIs(tables: map<Path, Path>, keyword: string, c: Clause, parent: ClauseKind)
    requires ReadableOrNull(c)
    ensures Optional(tables, keyword, c, parent) == Ok(PartText(keyword, Canonical(c), TextOr(tables, c, parent)))
    ensures Canonical(c) != Null ==> Reads(TextOr(tables, c, parent), Canonical(c))
  {
    hide Text, Reads, Readable, Canonical;
    CanonicalIsThere(c);
    if c != Null { ReadableText(tables, c, Some(parent)); }
  }

  lemma {:induction false} ItemTexts(tables: map<Path, Path>, cs: seq<Clause>, parent: ClauseKind)
    requires ReadableAll(cs)
    ensures var r := Texts(tables, cs, parent);
            r.Ok? && forall i :: 0 <= i < |cs| ==> Reads(r.value[i], CanonicalAll(cs)[i])
  {
    hide Reads, Text, Canonical;
    if cs != [] {
      ReadableText(tables, cs[0], Some(parent));
      ItemTexts(tables, cs[1..], parent);
    }
  }

  lemma {:induction false} PairTexts(tables: map<Path, Path>, pairs: seq<Assignment>, parent: ClauseKind)
    requires ReadablePairs(pairs)
    ensures var r := AssignTexts(tables, pairs, parent);
            && r.Ok? && |r.value| == |pairs|
            && forall i :: 0 <= i < |pairs| ==> PairReads(r.value[i], CanonicalPairs(pairs)[i])
  {
    hide Reads, Text, Canonical, PairReads;
    if pairs != [] {
      OnePairText(tables, pairs[0], parent);
      PairTexts(tables, pairs[1..], parent);
    }
  }

  lemma OnePairText(tables: map<Path, Path>, pair: Assignment, parent: ClauseKind)
    requires Readable(pair.target) && Readable(pair.value)
    ensures var r := AssignText(tables, pair, parent);
            r.Ok? && PairReads(r.value, Assignment(Canonical(pair.target), Canonical(pair.value)))
  {
    hide Reads, Text, Canonical;
    ReadableText(tables, pair.target, Some(parent));
    ReadableText(tables, pair.value, Some(parent));
  }

  lemma {:induction false} RowsText(tables: map<Path, Path>, rows: seq<Row>)
    requires ReadableRows(rows)
    ensures var r := RowTexts(tables, rows);
            && r.Ok? && |r.value| == |rows|
            && forall i :: 0 <= i < |rows| ==> RowReads(r.value[i], CanonicalRows(rows)[i])
  {
    hide RowText, RowReads, ReadableAll;
    if rows != [] {
      OneRowText(tables, rows[0]);
      RowsText(tables, rows[1..]);
    }
  }

  lemma OneRowText(tables: map<Path, Path>, row: Row)
    requires ReadableAll(row.cells)
    ensures var r := RowText(tables, row); r.Ok? && RowReads(r.value, Row(CanonicalAll(row.cells)))
  {
    hide Reads, Text;
    ItemTexts(tables, row.cells, InsertKind);
  }

  // ---------------------------------------------------------------------------------- Each statement

  /** An UPDATE: its table, its pairs in order, and its condition or the lack of one. */
  lemma UpdateReads(tables: map<Path, Path>, c: Clause)
    requires c.Update? && ReadableStatement(tables, c)
    ensures Text(tables, c, None).Ok?
    ensures ReadStatement(Text(tables, c, None).value) == Some((Printed(tables, c), ""))
  {
    hide Optional, AssignTexts, JoinTexts, ReadPairs, ReadPart, Follows, Reads, PairReads, Readable, Canonical;
    PairTexts(tables, c.sets, UpdateKind);
    PartIs(tables, Keyword(0), c.where, UpdateKind);
    var table, texts := tables[c.updated], AssignTexts(tables, c.sets, UpdateKind).value;
    var part := PartText(Keyword(0), Canonical(c.where), TextOr(tables, c.where, UpdateKind));
    EndFollows(1);
    PartReads(0, Canonical(c.where), TextOr(tables, c.where, UpdateKind), "");
    assert part + "" == part;
    FollowsNothing(part, 0);
    PairsRead(texts, CanonicalPairs(c.sets), part);
    var pairs := JoinTexts(texts, ", ") + part;
    UpdateText(tables, c, texts, part);
    Cut("UPDATE ", TableText(table) + (" SET " + pairs));
    TableReads(table, " SET " + pairs);
    Cut(" SET ", pairs);
  }

  lemma EndFollows(k: nat)
    ensures Follows("", k)
  {}

  lemma UpdateText(tables: map<Path, Path>, c: Clause, texts: seq<string>, part: string)
    requires c.Update? && c.updated in tables && AssignTexts(tables, c.sets, UpdateKind) == Ok(texts)
    requires Optional(tables, " WHERE ", c.where, UpdateKind) == Ok(part)
    ensures Text(tables, c, None) ==
            Ok("UPDATE " + (TableText(tables[c.updated]) + (" SET " + (JoinTexts(texts, ", ") + part))))
  {
    hide Optional, AssignTexts, JoinTexts, TableText;
    var t, j := TableText(tables[c.updated]), JoinTexts(texts, ", ");
    assert "UPDATE " + (t + " SET ") + j + part == "UPDATE " + (t + (" SET " + (j + part)));
  }

  /** A DELETE: its table, and its condition or the lack of one. */
  lemma DeleteReads(tables: map<Path, Path>, c: Clause)
    requires c.Delete? && ReadableStatement(tables, c)
    ensures Text(tables, c, None).Ok?
    ensures ReadStatement(Text(tables, c, None).value) == Some((Printed(tables, c), ""))
  {
    hide Optional, ReadPart, Follows, Reads, Readable, Canonical;
    PartIs(tables, Keyword(0), c.where, DeleteKind);
    var table := tables[c.deleted];
    var part := PartText(Keyword(0), Canonical(c.where), TextOr(tables, c.where, DeleteKind));
    EndFollows(1);
    PartReads(0, Canonical(c.where), TextOr(tables, c.where, DeleteKind), "");
    assert part + "" == part;
    FollowsNothing(part, 0);
    DeleteText(tables, c, part);
    NotAfter("UPDATE ", "DELETE FROM " + (TableText(table) + part), 0);
    Cut("DELETE FROM ", TableText(table) + part);
    TableReads(table, part);
  }

  lemma DeleteText(tables: map<Path, Path>, c: Clause, part: string)
    requires c.Delete? && c.deleted in tables && Optional(tables, " WHERE ", c.where, DeleteKind) == Ok(part)
    ensures Text(tables, c, None) == Ok("DELETE FROM " + (TableText(tables[c.deleted]) + part))
  {
    hide Optional, TableText;
    var t := TableText(tables[c.deleted]);
    assert "DELETE FROM " + t + part == "DELETE FROM " + (t + part);
  }

  // ---------------------------------------------------------------------------------- INSERT

  function ColumnsPart(columns: seq<Clause>, texts: seq<string>): string {
    if columns == [] then "" else "(" + JoinTexts(texts, ", ") + ") "
  }

  function ValuesPart(isValues: bool, rows: seq<Row>, texts: seq<string>): string {
    if !isValues then "" else if rows == [] then "DEFAULT VALUES" else "VALUES " + JoinTexts(texts, ", ")
  }

  function ConflictPart(isDoUpdate: bool, texts: seq<string>): string {
    if isDoUpdate then Keyword(5) + JoinTexts(texts, ", ") else ""
  }

  lemma ColumnsRead(texts: seq<string>, columns: seq<Clause>, tail: string)
    requires |texts| == |columns| && forall i :: 0 <= i < |columns| ==> Reads(texts[i], columns[i])
    requires After("(", tail) == None
    ensures ReadColumns(ColumnsPart(columns, texts) + tail) == (columns, tail)
  {
    hide Reads, ReadArguments, JoinTexts;
    if columns == [] {
      assert "" + tail == tail;
    } else {
      var list := JoinTexts(texts, ", ");
      assert "(" + list + ") " + tail == "(" + (list + (")" + (" " + tail)));
      Cut("(", list + (")" + (" " + tail)));
      ArgumentsRead(texts, columns, " " + tail);
      Cut(" ", tail);
    }
  }

  lemma ValuesRead(isValues: bool, texts: seq<string>, rows: seq<Row>, tail: string)
    requires |texts| == |rows| && forall i :: 0 <= i < |rows| ==> RowReads(texts[i], rows[i])
    requires After(", ", tail) == None && (tail == "" || tail[0] == ' ')
    ensures ReadValues(ValuesPart(isValues, rows, texts) + tail) == (isValues, if isValues then rows else [], tail)
    ensures After("(", ValuesPart(isValues, rows, texts) + tail) == None
  {
    hide RowReads, ReadRows, JoinTexts;
    if !isValues {
      assert "" + tail == tail;
    } else if rows == [] {
      Cut("DEFAULT VALUES", tail);
      NotAfter("(", "DEFAULT VALUES" + tail, 0);
    } else {
      var list := JoinTexts(texts, ", ");
      RowsRead(texts, rows, tail);
      var all := "VALUES " + (list + tail);
      assert "VALUES " + list + tail == all;
      NotAfter("DEFAULT VALUES", all, 0);
      NotAfter("(", all, 0);
      Cut("VALUES ", list + tail);
    }
  }

  lemma ConflictReads(isDoUpdate: bool, texts: seq<string>, pairs: seq<Assignment>)
    requires |texts| == |pairs| && forall i :: 0 <= i < |pairs| ==> PairReads(texts[i], pairs[i])
    ensures var part := ConflictPart(isDoUpdate, texts);
            && Follows(part, 5)
            && (isDoUpdate ==> After(Keyword(5), part).Some? && ReadPairs(After(Keyword(5), part).value) == (pairs, ""))
            && (!isDoUpdate ==> After(Keyword(5), part) == None && part == "")
  {
    hide PairReads, ReadPairs, JoinTexts, Ends, Keyword;
    KeywordLetters(5);
    EndFollows(6);
    if isDoUpdate {
      FollowsNothing("", 6);
      PairsRead(texts, pairs, "");
      assert JoinTexts(texts, ", ") + "" == JoinTexts(texts, ", ");
      Cut(Keyword(5), JoinTexts(texts, ", "));
    }
  }

  lemma InsertIs(tables: map<Path, Path>, c: Clause, columns: seq<string>, rows: seq<string>, pairs: seq<string>)
    requires c.Insert? && Texts(tables, c.columns, InsertKind) == Ok(columns)
    requires c.isValues ==> RowTexts(tables, c.rows) == Ok(rows)
    requires c.isDoUpdate ==> AssignTexts(tables, c.doUpdate, InsertKind) == Ok(pairs)
    ensures Text(tables, c, None) ==
            Ok("INSERT INTO " + (TableText(c.into) + (" " + (ColumnsPart(c.columns, columns) +
               (ValuesPart(c.isValues, c.rows, rows) + ConflictPart(c.isDoUpdate, pairs))))))
  {
    hide ColumnsPart, ValuesPart, ConflictPart, TableText;
    InsertInParts(tables, c, columns, rows, pairs);
    InsertAssociates(TableText(c.into), ColumnsPart(c.columns, columns), ValuesPart(c.isValues, c.rows, rows),
      ConflictPart(c.isDoUpdate, pairs));
  }

  lemma InsertInParts(tables: map<Path, Path>, c: Clause, columns: seq<string>, rows: seq<string>, pairs: seq<string>)
    requires c.Insert? && Texts(tables, c.columns, InsertKind) == Ok(columns)
    requires c.isValues ==> RowTexts(tables, c.rows) == Ok(rows)
    requires c.isDoUpdate ==> AssignTexts(tables, c.doUpdate, InsertKind) == Ok(pairs)
    ensures InsertText(tables, c) ==
            Ok("INSERT INTO " + TableText(c.into) + " " + ColumnsPart(c.columns, columns) +
               ValuesPart(c.isValues, c.rows, rows) + ConflictPart(c.isDoUpdate, pairs))
  {
    hide Texts, RowTexts, AssignTexts, JoinTexts, TableText;
  }

  lemma InsertAssociates(t: string, a: string, b: string, d: string)
    ensures "INSERT INTO " + t + " " + a + b + d == "INSERT INTO " + (t + (" " + (a + (b + d))))
  {}

  /** An INSERT: its table, its columns in order, its rows cell by cell or DEFAULT VALUES, and the pairs of ON
      CONFLICT. */
  lemma InsertReads(tables: map<Path, Path>, c: Clause)
    requires c.Insert? && ReadableStatement(tables, c)
    ensures Text(tables, c, None).Ok?
    ensures ReadStatement(Text(tables, c, None).value) == Some((Printed(tables, c), ""))
  {
    hide JoinTexts, ReadPairs, ReadColumns, ReadValues, Follows, Reads, PairReads, RowReads, Readable, Canonical,
      TableText, ReadTable, ColumnsPart, ValuesPart, ConflictPart, Text;
    ItemTexts(tables, c.columns, InsertKind);
    var columns := Texts(tables, c.columns, InsertKind).value;
    var printedRows, printedPairs := if c.isValues then CanonicalRows(c.rows) else [],
      if c.isDoUpdate then CanonicalPairs(c.doUpdate) else [];
    var rows, pairs := [], [];
    if c.isValues {
      RowsText(tables, c.rows);
      rows := RowTexts(tables, c.rows).value;
    }
    if c.isDoUpdate {
      PairTexts(tables, c.doUpdate, InsertKind);
      pairs := AssignTexts(tables, c.doUpdate, InsertKind).value;
    }
    InsertIs(tables, c, columns, rows, pairs);
    InsertPartsRead(c.into, CanonicalAll(c.columns), columns, c.isValues, printedRows, rows, c.isDoUpdate, printedPairs,
      pairs);
    PartsAlike(tables, c, columns, rows);
  }

  lemma PartsAlike(tables: map<Path, Path>, c: Clause, columns: seq<string>, rows: seq<string>)
    requires c.Insert?
    ensures ColumnsPart(c.columns, columns) == ColumnsPart(CanonicalAll(c.columns), columns)
    ensures ValuesPart(c.isValues, c.rows, rows) ==
            ValuesPart(c.isValues, if c.isValues then CanonicalRows(c.rows) else [], rows)
  {
    hide Canonical;
  }

  lemma InsertPartsRead(table: Path, columns: seq<Clause>, columnTexts: seq<string>, isValues: bool, rows: seq<Row>,
                        rowTexts: seq<string>, isDoUpdate: bool, pairs: seq<Assignment>, pairTexts: seq<string>)
    requires |columnTexts| == |columns| && forall i :: 0 <= i < |columns| ==> Reads(columnTexts[i], columns[i])
    requires |rowTexts| == |rows| && forall i :: 0 <= i < |rows| ==> RowReads(rowTexts[i], rows[i])
    requires |pairTexts| == |pairs| && forall i :: 0 <= i < |pairs| ==> PairReads(pairTexts[i], pairs[i])
    requires (!isValues ==> rows == []) && (!isDoUpdate ==> pairs == [])
    ensures ReadStatement("INSERT INTO " + (TableText(table) + (" " + (ColumnsPart(columns, columnTexts) +
              (ValuesPart(isValues, rows, rowTexts) + ConflictPart(isDoUpdate, pairTexts)))))) ==
            Some((Insert(table, columns, isValues, rows, isDoUpdate, pairs), ""))
  {
    hide JoinTexts, ReadPairs, ReadColumns, ReadValues, Follows, Reads, PairReads, RowReads, TableText, ReadTable,
      ColumnsPart, ValuesPart, ConflictPart, Ends;
    var conflict := ConflictPart(isDoUpdate, pairTexts);
    var values := ValuesPart(isValues, rows, rowTexts) + conflict;
    var list := ColumnsPart(columns, columnTexts) + values;
    var all := TableText(table) + (" " + list);
    ConflictReads(isDoUpdate, pairTexts, pairs);
    FollowsNothing(conflict, 5);
    ValuesRead(isValues, rowTexts, rows, conflict);
    ColumnsRead(columnTexts, columns, values);
    NotAfter("UPDATE ", "INSERT INTO " + all, 0);
    NotAfter("DELETE FROM ", "INSERT INTO " + all, 0);
    Cut("INSERT INTO ", all);
    TableReads(table, " " + list);
    Cut(" ", list);
    assert Keyword(5) == " ON CONFLICT DO UPDATE SET ";
  }

  // ---------------------------------------------------------------------------------- SELECT

  /** What can follow a join: another one, or the parts behind all joins. */
  ghost predicate JoinFollows(tail: string) {
    || Follows(tail, 0) || " LEFT JOIN " <= tail || " INNER JOIN " <= tail || " LEFT OUTER JOIN " <= tail
  }

  lemma JoinFollowsNothing(tail: string)
    requires JoinFollows(tail)
    ensures Ends(tail) && After(", ", tail) == None && After(" FROM ", tail) == None
    ensures tail == "" || tail[0] == ' '
  {
    hide Ends, EndsPlainly, Keyword, Follows;
    if Follows(tail, 0) {
      FollowsNothing(tail, 0);
    } else if " INNER JOIN " <= tail {
      Starting(" INNER JOIN ", tail);
      InnerEnds(tail);
      NotAfter(", ", tail, 0);
      NotAfter(" FROM ", tail, 1);
    } else {
      LeftEnds();
      var keyword := if " LEFT JOIN " <= tail then " LEFT JOIN " else " LEFT OUTER JOIN ";
      Starting(keyword, tail);
      PlainEnds(keyword, tail[|keyword|..]);
      NotAfter(", ", tail, 0);
      NotAfter(" FROM ", tail, 1);
    }
  }

  lemma LeftEnds()
    ensures EndsPlainly(" LEFT JOIN ") && EndsPlainly(" LEFT OUTER JOIN ")
  {}

  /** " INNER JOIN " starts like " IN (", but goes on otherwise. */
  lemma InnerEnds(tail: string)
    requires " INNER JOIN " <= tail
    ensures Ends(tail)
  {
    hide ReadList;
    Starting(" INNER JOIN ", tail);
    NotAfter(" IS NULL", tail, 2);
    NotAfter(" IS NOT NULL", tail, 2);
    NotAfter(" IN (", tail, 3);
    NotAfter(" NOT IN (", tail, 1);
  }

  lemma JoinKeywordReads(t: JoinType, tail: string)
    ensures ReadJoinKeyword(" " + (JoinKeyword(t) + tail)) == Some((t, tail))
    ensures JoinFollows(" " + (JoinKeyword(t) + tail))
  {
    var s := " " + (JoinKeyword(t) + tail);
    match t
    case LeftJoin =>
      assert s == " LEFT JOIN " + tail;
      Cut(" LEFT JOIN ", tail);
    case InnerJoin =>
      assert s == " INNER JOIN " + tail;
      NotAfter(" LEFT JOIN ", s, 1);
      Cut(" INNER JOIN ", tail);
    case ExclusiveLeftJoin =>
      assert s == " LEFT OUTER JOIN " + tail;
      NotAfter(" LEFT JOIN ", s, 6);
      NotAfter(" INNER JOIN ", s, 1);
      Cut(" LEFT OUTER JOIN ", tail);
  }

  /** The text of a join whose condition has the given text. */
  function JoinPart(join: Clause, on: string): string
    requires join.Join?
  {
    JoinKeyword(join.joinType) + (TableText(join.joined) + (" " + PartText("ON ", join.on, on)))
  }

  lemma OnReads(c: Clause, text: string, tail: string)
    requires (c != Null ==> Reads(text, c)) && Ends(tail) && (tail == "" || tail[0] == ' ')
    ensures ReadPart("ON ", PartText("ON ", c, text) + tail) == (c, tail)
  {
    hide ReadClause, Ends, Reads;
    if c == Null {
      assert "" + tail == tail;
    } else {
      assert "ON " + text + tail == "ON " + (text + tail);
      Cut("ON ", text + tail);
      ReadsAt(text, c, tail);
    }
  }

  lemma OneJoinReads(join: Clause, on: string, tail: string)
    requires join.Join? && (join.on != Null ==> Reads(on, join.on)) && JoinFollows(tail)
    ensures ReadJoin(" " + JoinPart(join, on) + tail) == Some((join, tail))
    ensures JoinFollows(" " + JoinPart(join, on) + tail)
  {
    hide ReadClause, Ends, Reads, TableText, ReadTable, ReadPart, PartText, JoinFollows, JoinKeyword, ReadJoinKeyword;
    var part := PartText("ON ", join.on, on) + tail;
    var table := TableText(join.joined) + (" " + part);
    assert " " + JoinPart(join, on) + tail == " " + (JoinKeyword(join.joinType) + table);
    JoinFollowsNothing(tail);
    JoinKeywordReads(join.joinType, table);
    TableReads(join.joined, " " + part);
    Cut(" ", part);
    OnReads(join.on, on, tail);
  }

  ghost predicate JoinReads(text: string, join: Clause) {
    join.Join? && exists on :: text == JoinPart(join, on) && (join.on != Null ==> Reads(on, join.on))
  }

  lemma {:induction false} JoinsRead(texts: seq<string>, joins: seq<Clause>, tail: string)
    requires |texts| == |joins| && forall i :: 0 <= i < |joins| ==> JoinReads(texts[i], joins[i])
    requires Follows(tail, 0)
    ensures ReadJoins(Spaced(texts) + tail) == (joins, tail) && JoinFollows(Spaced(texts) + tail)
  {
    hide Ends, Reads, Follows, ReadJoin, JoinPart, Keyword;
    if texts == [] {
      FollowsNothing(tail, 0);
      assert "" + tail == tail;
      NothingJoined(tail);
    } else {
      var more := Spaced(texts[1..]) + tail;
      JoinsRead(texts[1..], joins[1..], tail);
      var on :| texts[0] == JoinPart(joins[0], on) && (joins[0].on != Null ==> Reads(on, joins[0].on));
      assert Spaced(texts) + tail == " " + texts[0] + more;
      OneJoinReads(joins[0], on, more);
      assert joins == [joins[0]] + joins[1..];
    }
  }

  lemma NothingJoined(s: string)
    requires ReadJoinKeyword(s) == None
    ensures ReadJoin(s) == None
  {}

  lemma {:induction false} JoinTextsRead(tables: map<Path, Path>, joins: seq<Clause>)
    requires ReadableJoins(tables, joins)
    ensures var r := Texts(tables, joins, SelectKind);
            r.Ok? && forall i :: 0 <= i < |joins| ==> JoinReads(r.value[i], CanonicalJoins(tables, joins)[i])
  {
    hide Text, JoinReads, ReadableOrNull, Canonical;
    if joins != [] {
      OneJoinText(tables, joins[0]);
      JoinTextsRead(tables, joins[1..]);
    }
  }

  lemma OneJoinText(tables: map<Path, Path>, join: Clause)
    requires join.Join? && join.joined in tables && ReadableOrNull(join.on)
    ensures var r := Text(tables, join, Some(SelectKind));
            r.Ok? && JoinReads(r.value, Join(join.joinType, tables[join.joined], Canonical(join.on)))
  {
    hide Reads, TableText, Readable, Canonical, JoinKeyword, Optional, TextOr, PartText;
    PartIs(tables, "ON ", join.on, JoinKind);
    var printed := Join(join.joinType, tables[join.joined], Canonical(join.on));
    var on, t := TextOr(tables, join.on, JoinKind), TableText(tables[join.joined]);
    var part := PartText("ON ", printed.on, on);
    assert JoinKeyword(join.joinType) + (t + " ") + part == JoinKeyword(join.joinType) + (t + (" " + part));
    assert Text(tables, join, Some(SelectKind)) == Ok(JoinPart(printed, on));
  }

  function FromPart(from: Clause): string { if from.Table? then " FROM " + TableText(from.table) else "" }

  lemma FromReads(from: Clause, tail: string)
    requires (from == Null || from.Table?) && JoinFollows(tail)
    ensures ReadFrom(FromPart(from) + tail) == (from, tail)
    ensures Ends(FromPart(from) + tail) && After(", ", FromPart(from) + tail) == None
  {
    hide Ends, EndsPlainly, TableText, ReadTable, JoinFollows;
    JoinFollowsNothing(tail);
    if from == Null {
      assert "" + tail == tail;
    } else {
      var rest := TableText(from.table) + tail;
      assert FromPart(from) + tail == " FROM " + rest;
      Cut(" FROM ", rest);
      FromEnds();
      PlainEnds(" FROM ", rest);
      NotAfter(", ", " FROM " + rest, 0);
      EndsDelimited(tail);
      TableReads(from.table, tail);
    }
  }

  lemma EndsDelimited(s: string)
    requires Ends(s)
    ensures Delimited(s)
  {}

  /** The optional parts of a SELECT, in their order. */
  datatype Parts = Parts(where: Clause, groupBy: Clause, having: Clause, orderBy: Clause, limit: Clause)

  function PartsText(p: Parts, texts: seq<string>): string
    requires |texts| == 5
  {
    PartText(Keyword(0), p.where, texts[0]) + (PartText(Keyword(1), p.groupBy, texts[1]) +
    (PartText(Keyword(2), p.having, texts[2]) + (PartText(Keyword(3), p.orderBy, texts[3]) +
    PartText(Keyword(4), p.limit, texts[4]))))
  }

  ghost predicate PartsRead(p: Parts, texts: seq<string>)
    requires |texts| == 5
  {
    && (p.where != Null ==> Reads(texts[0], p.where)) && (p.groupBy != Null ==> Reads(texts[1], p.groupBy))
    && (p.having != Null ==> Reads(texts[2], p.having)) && (p.orderBy != Null ==> Reads(texts[3], p.orderBy))
    && (p.limit != Null ==> Reads(texts[4], p.limit))
  }

  lemma PartsAreRead(p: Parts, texts: seq<string>)
    requires |texts| == 5 && PartsRead(p, texts)
    ensures var s3 := PartsText(p, texts);
            && Follows(s3, 0)
            && var (where, s4) := ReadPart(Keyword(0), s3);
            var (groupBy, s5) := ReadPart(Keyword(1), s4);
            var (having, s6) := ReadPart(Keyword(2), s5);
            var (orderBy, s7) := ReadPart(Keyword(3), s6);
            var (limit, rest) := ReadPart(Keyword(4), s7);
            Parts(where, groupBy, having, orderBy, limit) == p && rest == ""
  {
    hide ReadPart, PartText, Follows, Reads, Keyword;
    var a4 := PartText(Keyword(4), p.limit, texts[4]);
    var a3 := PartText(Keyword(3), p.orderBy, texts[3]) + a4;
    var a2 := PartText(Keyword(2), p.having, texts[2]) + a3;
    var a1 := PartText(Keyword(1), p.groupBy, texts[1]) + a2;
    EndFollows(5);
    assert a4 + "" == a4;
    PartReads(4, p.limit, texts[4], "");
    PartReads(3, p.orderBy, texts[3], a4);
    PartReads(2, p.having, texts[2], a3);
    PartReads(1, p.groupBy, texts[1], a2);
    PartReads(0, p.where, texts[0], a1);
  }

  lemma SelectPartsRead(items: seq<string>, selectors: seq<Clause>, from: Clause, joinTexts: seq<string>,
                        joins: seq<Clause>, p: Parts, texts: seq<string>)
    requires |items| == |selectors| > 0 && forall i :: 0 <= i < |selectors| ==> Reads(items[i], selectors[i])
    requires from == Null || from.Table?
    requires |joinTexts| == |joins| && forall i :: 0 <= i < |joins| ==> JoinReads(joinTexts[i], joins[i])
    requires |texts| == 5 && PartsRead(p, texts)
    ensures ReadStatement("SELECT " + (JoinTexts(items, ", ") + (FromPart(from) + (Spaced(joinTexts) +
              PartsText(p, texts))))) ==
            Some((Select(selectors, from, joins, p.where, p.groupBy, p.having, p.orderBy, p.limit), ""))
  {
    hide JoinTexts, Spaced, ReadItems, ReadFrom, ReadJoins, ReadPart, Follows, JoinFollows, Reads, JoinReads, PartsRead,
      PartsText, FromPart, Ends;
    var parts := PartsText(p, texts);
    var behind := Spaced(joinTexts) + parts;
    var after := FromPart(from) + behind;
    var all := JoinTexts(items, ", ") + after;
    PartsAreRead(p, texts);
    JoinsRead(joinTexts, joins, parts);
    FromReads(from, behind);
    ItemsRead(items, selectors, after);
    NotAfter("UPDATE ", "SELECT " + all, 0);
    NotAfter("DELETE FROM ", "SELECT " + all, 0);
    NotAfter("INSERT INTO ", "SELECT " + all, 0);
    Cut("SELECT ", all);
  }

  lemma SelectAssociates(list: string, from: string, joins: string, a: string, b: string, c: string, d: string,
                         e: string)
    ensures "SELECT " + list + from + joins + a + b + c + d + e ==
            "SELECT " + (list + (from + (joins + (a + (b + (c + (d + e)))))))
  {}

  function ListPart(selectors: seq<Clause>, items: seq<string>): string {
    if selectors == [] then "*" else JoinTexts(items, ", ")
  }

  lemma SelectIs(tables: map<Path, Path>, c: Clause, items: seq<string>, from: string, joins: seq<string>, a: string,
                 b: string, d: string, e: string, f: string)
    requires c.Select? && Texts(tables, c.selectors, SelectKind) == Ok(items)
    requires Optional(tables, " FROM ", c.from, SelectKind) == Ok(from)
    requires Texts(tables, c.joins, SelectKind) == Ok(joins)
    requires Optional(tables, Keyword(0), c.where, SelectKind) == Ok(a)
    requires Optional(tables, Keyword(1), c.groupBy, SelectKind) == Ok(b)
    requires Optional(tables, Keyword(2), c.having, SelectKind) == Ok(d)
    requires Optional(tables, Keyword(3), c.orderBy, SelectKind) == Ok(e)
    requires Optional(tables, Keyword(4), c.limit, SelectKind) == Ok(f)
    ensures Text(tables, c, None) ==
            Ok("SELECT " + (ListPart(c.selectors, items) + (from + (Spaced(joins) + (a + (b + (d + (e + f))))))))
  {
    hide Texts, Optional, JoinTexts, Spaced;
    SelectAssociates(ListPart(c.selectors, items), from, Spaced(joins), a, b, d, e, f);
  }

  /** A SELECT: its selectors, FROM, joins, WHERE, GROUP BY, HAVING, ORDER BY and LIMIT, each its own or missing. */
  lemma SelectReads(tables: map<Path, Path>, c: Clause)
    requires c.Select? && ReadableStatement(tables, c)
    ensures Text(tables, c, None).Ok?
    ensures ReadStatement(Text(tables, c, None).value) == Some((Printed(tables, c), ""))
  {
    hide JoinTexts, Spaced, Reads, JoinReads, Readable, Canonical, TableText, Text, Texts, Optional, TextOr, PartText,
      ReadStatement, Keyword, CanonicalJoins;
    var items, selectors := PrintedSelectors(tables, c);
    JoinTextsRead(tables, c.joins);
    var joins := Texts(tables, c.joins, SelectKind).value;
    var from := if c.from.Table? then Table(tables[c.from.table]) else Null;
    FromIs(tables, c.from);
    var w, g, h, o, l := TextOr(tables, c.where, SelectKind), TextOr(tables, c.groupBy, SelectKind),
      TextOr(tables, c.having, SelectKind), TextOr(tables, c.orderBy, SelectKind), TextOr(tables, c.limit, SelectKind);
    PartIs(tables, Keyword(0), c.where, SelectKind);
    PartIs(tables, Keyword(1), c.groupBy, SelectKind);
    PartIs(tables, Keyword(2), c.having, SelectKind);
    PartIs(tables, Keyword(3), c.orderBy, SelectKind);
    PartIs(tables, Keyword(4), c.limit, SelectKind);
    var p := Parts(Canonical(c.where), Canonical(c.groupBy), Canonical(c.having), Canonical(c.orderBy),
                   Canonical(c.limit));
    SelectIs(tables, c, Texts(tables, c.selectors, SelectKind).value, FromPart(from), joins,
      PartText(Keyword(0), p.where, w), PartText(Keyword(1), p.groupBy, g), PartText(Keyword(2), p.having, h),
      PartText(Keyword(3), p.orderBy, o), PartText(Keyword(4), p.limit, l));
    SelectPartsRead(items, selectors, from, joins, CanonicalJoins(tables, c.joins), p, [w, g, h, o, l]);
  }

  /** The selectors as printed: "*" for none. */
  lemma PrintedSelectors(tables: map<Path, Path>, c: Clause) returns (items: seq<string>, selectors: seq<Clause>)
    requires c.Select? && ReadableAll(c.selectors)
    ensures Texts(tables, c.selectors, SelectKind).Ok?
    ensures selectors == if c.selectors == [] then [All] else CanonicalAll(c.selectors)
    ensures |items| == |selectors| > 0 && forall i :: 0 <= i < |selectors| ==> Reads(items[i], selectors[i])
    ensures JoinTexts(items, ", ") == ListPart(c.selectors, Texts(tables, c.selectors, SelectKind).value)
  {
    hide Reads, Text, Canonical;
    ItemTexts(tables, c.selectors, SelectKind);
    if c.selectors == [] {
      items, selectors := ["*"], [All];
      StarReads(tables);
    } else {
      items, selectors := Texts(tables, c.selectors, SelectKind).value, CanonicalAll(c.selectors);
    }
  }

  lemma StarReads(tables: map<Path, Path>)
    ensures Reads("*", All)
  {
    hide Reads;
    ReadableText(tables, All, None);
  }

  lemma FromIs(tables: map<Path, Path>, from: Clause)
    requires from == Null || (from.Table? && from.table in tables)
    ensures Optional(tables, " FROM ", from, SelectKind) ==
            Ok(FromPart(if from.Table? then Table(tables[from.table]) else Null))
  {
    hide TableText;
  }

  // ---------------------------------------------------------------------------------- Main results

  lemma OthersRead(tables: map<Path, Path>, c: Clause)
    requires c.Truncate? || c.StartTransaction? || c.CommitTransaction? || c.RollbackTransaction?
    requires ReadableStatement(tables, c)
    ensures Text(tables, c, None).Ok?
    ensures ReadStatement(Text(tables, c, None).value) == Some((Printed(tables, c), ""))
  {
    match c
    case Truncate(truncated) => TruncateReads(tables[truncated]);
    case StartTransaction(readOnly) => TransactionsRead();
    case CommitTransaction => TransactionsRead();
    case RollbackTransaction => TransactionsRead();
  }

  lemma TruncateReads(table: Path)
    ensures ReadStatement("TRUNCATE TABLE " + TableText(table)) == Some((Truncate(table), ""))
  {
    hide TableText, ReadTable;
    var s := "TRUNCATE TABLE " + TableText(table);
    NotAfter("UPDATE ", s, 0);
    NotAfter("DELETE FROM ", s, 0);
    NotAfter("INSERT INTO ", s, 0);
    NotAfter("SELECT ", s, 0);
    Cut("TRUNCATE TABLE ", TableText(table));
    TableReads(table, "");
    assert TableText(table) + "" == TableText(table);
  }

  lemma TransactionsRead()
    ensures ReadStatement("BEGIN READ ONLY") == Some((StartTransaction(true), ""))
    ensures ReadStatement("BEGIN") == Some((StartTransaction(false), ""))
    ensures ReadStatement("COMMIT") == Some((CommitTransaction, ""))
    ensures ReadStatement("ROLLBACK") == Some((RollbackTransaction, ""))
  {
    hide ReadTransaction;
    OtherKeyword("BEGIN READ ONLY");
    OtherKeyword("BEGIN");
    OtherKeyword("COMMIT");
    OtherKeyword("ROLLBACK");
    BeginReads();
    EndReads();
  }

  lemma OtherKeyword(s: string)
    requires s != "" && (s[0] == 'B' || s[0] == 'C' || s[0] == 'R')
    ensures ReadStatement(s) == ReadTransaction(s)
  {
    NotAfter("UPDATE ", s, 0);
    NotAfter("DELETE FROM ", s, 0);
    NotAfter("INSERT INTO ", s, 0);
    NotAfter("SELECT ", s, 0);
    NotAfter("TRUNCATE TABLE ", s, 0);
  }

  lemma BeginReads()
    ensures ReadTransaction("BEGIN READ ONLY") == Some((StartTransaction(true), ""))
    ensures ReadTransaction("BEGIN") == Some((StartTransaction(false), ""))
  {
    Whole("BEGIN READ ONLY");
    Whole("BEGIN");
  }

  lemma EndReads()
    ensures ReadTransaction("COMMIT") == Some((CommitTransaction, ""))
    ensures ReadTransaction("ROLLBACK") == Some((RollbackTransaction, ""))
  {
    NotAfter("BEGIN READ ONLY", "COMMIT", 0);
    NotAfter("BEGIN", "COMMIT", 0);
    Whole("COMMIT");
    NotAfter("BEGIN READ ONLY", "ROLLBACK", 0);
    NotAfter("BEGIN", "ROLLBACK", 0);
    NotAfter("COMMIT", "ROLLBACK", 0);
    Whole("ROLLBACK");
  }

  lemma Whole(s: string)
    ensures After(s, s) == Some("")
  {}

  /** Any statement reads back from its text: every part of it is there, in its own place, and nothing else. */
  lemma StatementReads(tables: map<Path, Path>, c: Clause)
    requires ReadableStatement(tables, c)
    ensures Text(tables, c, None).Ok?
    ensures ReadStatement(Text(tables, c, None).value) == Some((Printed(tables, c), ""))
  {
    hide Text, ReadStatement, Printed;
    match c
    case Update(_, _, _) => UpdateReads(tables, c);
    case Delete(_, _) => DeleteReads(tables, c);
    case Insert(_, _, _, _, _, _) => InsertReads(tables, c);
    case Select(_, _, _, _, _, _, _, _) => SelectReads(tables, c);
    case _ => OthersRead(tables, c);
  }

  /** So statements with the same text have the same printed form. */
  lemma SameTextSameStatement(tables: map<Path, Path>, a: Clause, b: Clause)
    requires ReadableStatement(tables, a) && ReadableStatement(tables, b)
    requires Text(tables, a, None) == Text(tables, b, None)
    ensures Printed(tables, a) == Printed(tables, b)
  {
    hide Text, ReadStatement, Printed;
    StatementReads(tables, a);
    StatementReads(tables, b);
  }
}
