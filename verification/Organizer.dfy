/** What OrganizeInsert and OrganizeUpdate share: attributes, their values, their columns. */
module Organizer {
  import opened Common
  import Decimal
  import opened SqlTree

  const TWO_31 := 0x8000_0000
  const TWO_32 := 0x1_0000_0000
  const TWO_63 := 0x8000_0000_0000_0000
  const TWO_64 := 0x1_0000_0000_0000_0000

  type Uint32 = n: int | 0 <= n < TWO_32
  type Int32 = n: int | -TWO_31 <= n < TWO_31
  type Uint64 = n: int | 0 <= n < TWO_64
  type Int64 = n: int | -TWO_63 <= n < TWO_63

  /** TAttribute::Data. A floating-point value is given by the text std::to_string has for it. */
  datatype Data =
    | BoolData(truth: bool)
    | Uint32Data(u32: Uint32)
    | Int32Data(i32: Int32)
    | Uint64Data(u64: Uint64)
    | Int64Data(i64: Int64)
    | FloatData(digits: string)
    | DoubleData(digits: string)
    | StringData(text: string)
    | MessageData

  datatype Attribute = Attribute(path: Path, data: Data)

  /** static_cast<int32_t> of a 32-bit unsigned value. */
  function ToInt32(n: nat): Int32 { if n % TWO_32 < TWO_31 then n % TWO_32 else n % TWO_32 - TWO_32 }

  /** The builder clause of an attribute's value; a message has none and becomes DEFAULT. */
  function Convert(data: Data): Clause {
    match data
    case BoolData(truth) => Bool(truth)
    case Uint32Data(n) => Int(ToInt32(n))
    case Int32Data(n) => Int(n)
    case Uint64Data(n) => Str(Decimal.ToString(n))
    case Int64Data(n) => Str(Decimal.ToString(n))
    case FloatData(digits) => Float(digits)
    case DoubleData(digits) => Float(digits)
    case StringData(text) => Str(text)
    case MessageData => Default
  }

  // ---------------------------------------------------------------------------------- Values

  /** The type of an attribute, as the column that stores it knows it. */
  datatype DataType = BoolType | Uint32Type | Int32Type | Uint64Type | Int64Type | FloatType | DoubleType | StringType
    | MessageType

  function TypeOf(data: Data): DataType {
    match data
    case BoolData(_) => BoolType
    case Uint32Data(_) => Uint32Type
    case Int32Data(_) => Int32Type
    case Uint64Data(_) => Uint64Type
    case Int64Data(_) => Int64Type
    case FloatData(_) => FloatType
    case DoubleData(_) => DoubleType
    case StringData(_) => StringType
    case MessageData => MessageType
  }

  /** What a literal stands for in a column of the type. Columns of unsigned 32-bit numbers hold the signed number with
      the same remainder modulo 2^32, those of 64-bit numbers hold decimal texts. */
  function ReadAs(dataType: DataType, c: Clause): Option<Data> {
    match dataType
    case BoolType => if c.Bool? then Some(BoolData(c.truth)) else None
    case Uint32Type =>
      if c.Int? && -TWO_31 <= c.number < TWO_31 then Some(Uint32Data(c.number % TWO_32)) else None
    case Int32Type => if c.Int? && -TWO_31 <= c.number < TWO_31 then Some(Int32Data(c.number)) else None
    case Uint64Type =>
      if c.Str? && Decimal.FromText(c.text).Some? && 0 <= Decimal.FromText(c.text).value < TWO_64
      then Some(Uint64Data(Decimal.FromText(c.text).value)) else None
    case Int64Type =>
      if c.Str? && Decimal.FromText(c.text).Some? && -TWO_63 <= Decimal.FromText(c.text).value < TWO_63
      then Some(Int64Data(Decimal.FromText(c.text).value)) else None
    case FloatType => if c.Float? then Some(FloatData(c.digits)) else None
    case DoubleType => if c.Float? then Some(DoubleData(c.digits)) else None
    case StringType => if c.Str? then Some(StringData(c.text)) else None
    case MessageType => if c == Default then Some(MessageData) else None
  }

  /** The literal stands for the value. */
  predicate Means(c: Clause, data: Data) { ReadAs(TypeOf(data), c) == Some(data) }

  /** The clause built for a value stands for it, and no other literal does. */
  lemma ConvertMeaning(c: Clause, data: Data)
    ensures c == Convert(data) <==> Means(c, data)
  {
    hide Decimal.FromText, Decimal.ToString;
    match data
    case Uint64Data(n) => if c.Str? { Decimal.ReadsWhatIsWritten(c.text, n); }
    case Int64Data(n) => if c.Str? { Decimal.ReadsWhatIsWritten(c.text, n); }
    case _ =>
  }

  /** What the registry knows: the table of each registered path, and each table's primary fields. */
  datatype Schema = Schema(tables: map<Path, Path>, primary: map<Path, set<Path>>)

  /** A path extends the path of its table, and each table has its set of primary fields. */
  ghost predicate Consistent(schema: Schema) {
    forall p :: p in schema.tables ==> schema.tables[p] <= p && schema.tables[p] in schema.primary
  }

  predicate Registered(schema: Schema, path: Path) { path in schema.tables && schema.tables[path] <= path }

  ghost predicate AllRegistered(schema: Schema, attributes: seq<Attribute>) {
    forall i :: 0 <= i < |attributes| ==> Registered(schema, attributes[i].path)
  }

  /** TColumn(path.GetTable(), path.GetField()). */
  function ColumnOf(schema: Schema, path: Path): Clause
    requires Registered(schema, path)
  {
    Column(schema.tables[path], path[|schema.tables[path]|..], Simple, false)
  }

  /** The clause is the column of a registered path: the path is that of its table, followed by its field. */
  predicate Names(schema: Schema, c: Clause, path: Path) {
    && path in schema.tables && c.Column? && c.tablePath == schema.tables[path] && c.tablePath + c.fieldPath == path
    && c.key == Simple && !c.excluded
  }

  lemma ColumnMeaning(schema: Schema, c: Clause, path: Path)
    requires Registered(schema, path)
    ensures c == ColumnOf(schema, path) <==> Names(schema, c, path)
  {
    if Names(schema, c, path) { assert path[|c.tablePath|..] == c.fieldPath; }
  }

  /** A path has one column. */
  lemma OneColumn(schema: Schema, c: Clause, p: Path, d: Clause, q: Path)
    requires Names(schema, c, p) && Names(schema, d, q)
    ensures c == d <==> p == q
  {
    if p == q { assert c.fieldPath == p[|c.tablePath|..] == d.fieldPath; }
  }

  /** A value has one literal. */
  lemma OneLiteral(c: Clause, d: Clause, data: Data)
    requires Means(c, data) && Means(d, data)
    ensures c == d
  {
    ConvertMeaning(c, data);
    ConvertMeaning(d, data);
  }

  /** Different paths have different columns. */
  lemma ColumnDeterminesPath(schema: Schema, p: Path, q: Path)
    requires Registered(schema, p) && Registered(schema, q) && ColumnOf(schema, p) == ColumnOf(schema, q)
    ensures p == q
  {
    assert p == schema.tables[p] + p[|schema.tables[p]|..];
    assert q == schema.tables[q] + q[|schema.tables[q]|..];
  }

  /** The literal stands for the value given, or is DEFAULT if none is. */
  predicate Gives(c: Clause, value: Option<Data>) {
    match value case Some(data) => Means(c, data) case None => c == Default
  }

  /** The last value an attribute list gives for a path. */
  function LastValue(attributes: seq<Attribute>, path: Path): Option<Data> {
    if attributes == [] then None
    else
      var last := attributes[|attributes| - 1];
      if last.path == path then Some(last.data) else LastValue(attributes[..|attributes| - 1], path)
  }

  lemma {:induction false} LastValueMeaning(attributes: seq<Attribute>, path: Path)
    ensures LastValue(attributes, path) == None <==> forall i :: 0 <= i < |attributes| ==> attributes[i].path != path
    ensures LastValue(attributes, path).Some? ==>
      exists i :: 0 <= i < |attributes| && attributes[i] == Attribute(path, LastValue(attributes, path).value) &&
        forall j :: i < j < |attributes| ==> attributes[j].path != path
  {
    if attributes != [] && attributes[|attributes| - 1].path != path {
      LastValueMeaning(attributes[..|attributes| - 1], path);
    }
  }
}
