/** Rows of serde objects in Parquet files: schema, writer and reader walk the same types
    (src/analytics/SerdeSchemaBuilder.h, SerdeObjectWriter.h, SerdeObjectReader.h and their visitors). */
module Serde {
  import opened Prelude

  // ---------- columns and cells ----------

  datatype Kind = BoolKind | IntKind(bits: int, signed: bool) | TextKind

  datatype Column = Column(name: string, kind: Kind)

  datatype Cell = BoolCell(b: bool) | IntCell(bits: int, signed: bool, n: int) | TextCell(s: string)

  function KindOf(c: Cell): Kind {
    match c
    case BoolCell(_) => BoolKind
    case IntCell(bits, signed, _) => IntKind(bits, signed)
    case TextCell(_) => TextKind
  }

  function CellKinds(cells: seq<Cell>): (r: seq<Kind>)
    ensures |r| == |cells|
  {
    if cells == [] then [] else [KindOf(cells[0])] + CellKinds(cells[1..])
  }

  function ColumnKinds(columns: seq<Column>): (r: seq<Kind>)
    ensures |r| == |columns|
  {
    if columns == [] then [] else [columns[0].kind] + ColumnKinds(columns[1..])
  }

  lemma {:induction false} CellKindsAppend(a: seq<Cell>, b: seq<Cell>)
    ensures CellKinds(a + b) == CellKinds(a) + CellKinds(b)
    decreases |a|
  {
    if a == [] { assert a + b == b; } else { assert (a + b)[1..] == a[1..] + b; CellKindsAppend(a[1..], b); }
  }

  lemma {:induction false} ColumnKindsAppend(a: seq<Column>, b: seq<Column>)
    ensures ColumnKinds(a + b) == ColumnKinds(a) + ColumnKinds(b)
    decreases |a|
  {
    if a == [] { assert a + b == b; } else { assert (a + b)[1..] == a[1..] + b; ColumnKindsAppend(a[1..], b); }
  }

  // ---------- types and values ----------

  datatype Val =
    | VBool(b: bool) | VInt(n: int) | VStr(s: string)
    | VStruct(vals: Vals) | VVariant(index: int, val: Val)
    | VOk(val: Val) | VErr(code: int, msg: string)
    | VNone | VSome(val: Val) | VList(vals: Vals)

  datatype Vals = NoVals | Vals(head: Val, tail: Vals)

  /** JSON text of a container or of the value of an optional. */
  datatype Json = Json(text: Val -> string, parse: string -> Option<Val>, dflt: Val)

  /** The types the visitors take apart. `TConv` is a type with a pair of conversion methods; an enum lists the
      enumerators that reflection can name. */
  datatype Ty =
    | TBool | TInt(bits: int, signed: bool) | TEnum(named: set<int>) | TStr
    | TStrong(under: Ty) | TConv(to: Val -> Val, from: Val -> Option<Val>, under: Ty, dflt: Val)
    | TStruct(fields: Fields) | TVariant(alts: Fields) | TExpected(value: Ty)
    | TList(json: Json) | TOptional(json: Json)

  /** Fields of a struct, or alternatives of a variant: name, type and default value. */
  datatype Fields = NoFields | Field(name: string, ty: Ty, dflt: Val, rest: Fields)

  const VARIANT_INDEX_SUFFIX: string := "ValIdx"
  const ERROR_SUFFIX: string := "Error"

  predicate HasType(ty: Ty, v: Val)
    decreases ty, v
  {
    match ty
    case TBool => v.VBool?
    case TInt(_, _) => v.VInt?
    case TEnum(_) => v.VInt?
    case TStr => v.VStr?
    case TStrong(under) => HasType(under, v)
    case TConv(to, _, under, _) => HasType(under, to(v))
    case TStruct(fields) => v.VStruct? && HaveTypes(fields, v.vals)
    case TVariant(alts) => v.VVariant? && AltHasType(alts, v.index, v.val)
    case TExpected(value) => v.VErr? || (v.VOk? && HasType(value, v.val))
    case TList(_) => v.VList?
    case TOptional(_) => v.VNone? || v.VSome?
  }

  predicate HaveTypes(fields: Fields, vals: Vals)
    decreases fields, vals
  {
    match fields
    case NoFields => vals.NoVals?
    case Field(_, ty, _, rest) => vals.Vals? && HasType(ty, vals.head) && HaveTypes(rest, vals.tail)
  }

  predicate AltHasType(alts: Fields, i: int, v: Val)
    decreases alts, v
  {
    match alts
    case NoFields => false
    case Field(_, ty, _, rest) => if i == 0 then HasType(ty, v) else AltHasType(rest, i - 1, v)
  }

  /** A value-initialised object. */
  function Default(ty: Ty): Val
    decreases ty
  {
    match ty
    case TBool => VBool(false)
    case TInt(_, _) => VInt(0)
    case TEnum(_) => VInt(0)
    case TStr => VStr("")
    case TStrong(under) => Default(under)
    case TConv(_, _, _, dflt) => dflt
    case TStruct(fields) => VStruct(Defaults(fields))
    case TVariant(alts) => if alts.Field? then VVariant(0, Default(alts.ty)) else VVariant(0, VNone)
    case TExpected(value) => VOk(Default(value))
    case TList(_) => VList(NoVals)
    case TOptional(_) => VNone
  }

  function Defaults(fields: Fields): Vals
    decreases fields
  {
    match fields
    case NoFields => NoVals
    case Field(_, ty, dflt, rest) => Vals(dflt, Defaults(rest))
  }

  /** Defaults have their types, and a variant has an alternative. */
  predicate Proper(ty: Ty)
    decreases ty
  {
    match ty
    case TStrong(under) => Proper(under)
    case TConv(to, _, under, dflt) => Proper(under) && HasType(under, to(dflt))
    case TStruct(fields) => ProperFields(fields)
    case TVariant(alts) => alts.Field? && ProperFields(alts)
    case TExpected(value) => Proper(value)
    case _ => true
  }

  predicate ProperFields(fields: Fields)
    decreases fields
  {
    match fields
    case NoFields => true
    case Field(_, ty, dflt, rest) => Proper(ty) && HasType(ty, dflt) && ProperFields(rest)
  }

  lemma {:induction false} DefaultTyped(ty: Ty)
    requires Proper(ty)
    ensures HasType(ty, Default(ty))
    decreases ty
  {
    match ty
    case TStrong(under) => DefaultTyped(under);
    case TStruct(fields) => DefaultsTyped(fields);
    case TVariant(alts) => DefaultTyped(alts.ty);
    case TExpected(value) => DefaultTyped(value);
    case _ =>
  }

  lemma {:induction false} DefaultsTyped(fields: Fields)
    requires ProperFields(fields)
    ensures HaveTypes(fields, Defaults(fields))
    decreases fields
  {
    match fields
    case NoFields =>
    case Field(_, ty, dflt, rest) => DefaultsTyped(rest);
  }

  // ---------- column names ----------

  predicate ValidChar(c: char) { 'a' <= c <= 'z' || 'A' <= c <= 'Z' || '0' <= c <= '9' }

  function FilterOutInvalidChars(k: string): (r: string)
    ensures forall i :: 0 <= i < |r| ==> ValidChar(r[i])
  {
    if k == "" then ""
    else if ValidChar(k[|k| - 1]) then FilterOutInvalidChars(k[..|k| - 1]) + [k[|k| - 1]]
    else FilterOutInvalidChars(k[..|k| - 1])
  }

  /** Each character is kept or dropped on its own: the valid ones stay, in their order. */
  lemma {:induction false} FilterEach(a: string, c: char, b: string)
    ensures FilterOutInvalidChars(a + [c] + b)
         == FilterOutInvalidChars(a) + (if ValidChar(c) then [c] else "") + FilterOutInvalidChars(b)
    decreases |b|
  {
    var all := a + [c] + b;
    if b == "" {
      assert all[..|all| - 1] == a;
    } else {
      var n := |b| - 1;
      FilterEach(a, c, b[..n]);
      assert all[..|all| - 1] == a + [c] + b[..n];
    }
  }

  /** Name parts joined by underscores; empty leading parts leave none. */
  function Joined(parts: seq<string>): string {
    if parts == [] then ""
    else
      var a := Joined(parts[..|parts| - 1]);
      a + (if a == "" then "" else "_") + parts[|parts| - 1]
  }

  function FullName(parts: seq<string>, k: string): string { Joined(parts + [FilterOutInvalidChars(k)]) }

  /** The name parts while the fields of a struct are visited. */
  function Inside(parts: seq<string>, k: string): seq<string> {
    if k == "" then parts else parts + [FilterOutInvalidChars(k)]
  }

  // ---------- the three traversals ----------

  /** The columns of a type visited under name `k`. */
  function Columns(ty: Ty, k: string, parts: seq<string>): seq<Column>
    decreases ty
  {
    match ty
    case TBool => [Column(FullName(parts, k), BoolKind)]
    case TInt(bits, signed) => [Column(FullName(parts, k), IntKind(bits, signed))]
    case TEnum(_) => [Column(FullName(parts, k), IntKind(32, true))]
    case TStr => [Column(FullName(parts, k), TextKind)]
    case TStrong(under) => Columns(under, k, parts)
    case TConv(_, _, under, _) => Columns(under, k, parts)
    case TStruct(fields) => FieldColumns(fields, Inside(parts, k))
    case TVariant(alts) =>
      [Column(FullName(parts, k + VARIANT_INDEX_SUFFIX), IntKind(32, false))] + AltColumns(alts, k, parts)
    case TExpected(value) => StatusColumns(k + ERROR_SUFFIX, parts) + Columns(value, k, parts)
    case TList(_) => [Column(FullName(parts, k), TextKind)]
    case TOptional(_) => [Column(FullName(parts, k), TextKind)]
  }

  function FieldColumns(fields: Fields, parts: seq<string>): seq<Column>
    decreases fields
  {
    match fields
    case NoFields => []
    case Field(name, ty, _, rest) => Columns(ty, name, parts) + FieldColumns(rest, parts)
  }

  function AltColumns(alts: Fields, k: string, parts: seq<string>): seq<Column>
    decreases alts
  {
    match alts
    case NoFields => []
    case Field(name, ty, _, rest) => Columns(ty, k + name, parts) + AltColumns(rest, k, parts)
  }

  function StatusColumns(k: string, parts: seq<string>): seq<Column> {
    var inside := Inside(parts, k);
    [Column(FullName(inside, "code"), IntKind(16, false)), Column(FullName(inside, "msg"), TextKind)]
  }

  function StatusCells(code: int, msg: string): seq<Cell> { [IntCell(16, false, code), TextCell(msg)] }

  /** The cells the writer appends for a value. */
  function Encode(ty: Ty, v: Val): seq<Cell>
    requires Proper(ty) && HasType(ty, v)
    decreases ty
  {
    match ty
    case TBool => [BoolCell(v.b)]
    case TInt(bits, signed) => [IntCell(bits, signed, v.n)]
    case TEnum(_) => [IntCell(32, true, v.n)]
    case TStr => [TextCell(v.s)]
    case TStrong(under) => Encode(under, v)
    case TConv(to, _, under, _) => Encode(under, to(v))
    case TStruct(fields) => EncodeFields(fields, v.vals)
    case TVariant(alts) => [IntCell(32, false, v.index)] + EncodeAlts(alts, v.index, v.val)
    case TExpected(value) =>
      DefaultTyped(value);
      if v.VOk? then StatusCells(0, "") + Encode(value, v.val)
      else StatusCells(v.code, v.msg) + Encode(value, Default(value))
    case TList(json) => [TextCell(json.text(v))]
    case TOptional(json) => [TextCell(if v.VNone? then "" else json.text(v.val))]
  }

  function EncodeFields(fields: Fields, vals: Vals): seq<Cell>
    requires ProperFields(fields) && HaveTypes(fields, vals)
    decreases fields
  {
    match fields
    case NoFields => []
    case Field(_, ty, _, rest) => Encode(ty, vals.head) + EncodeFields(rest, vals.tail)
  }

  /** Alternatives that do not hold the value are written as defaults. */
  function EncodeAlts(alts: Fields, i: int, v: Val): seq<Cell>
    requires ProperFields(alts) && (0 <= i ==> AltHasType(alts, i, v))
    decreases alts
  {
    match alts
    case NoFields => []
    case Field(_, ty, _, rest) =>
      DefaultTyped(ty);
      Encode(ty, if i == 0 then v else Default(ty)) + EncodeAlts(rest, i - 1, v)
  }
}
