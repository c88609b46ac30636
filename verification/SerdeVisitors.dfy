/** The visitors that build a schema, append a row and read one
    (src/analytics/SerdeSchemaBuilder.h, SerdeObjectWriter.h, SerdeObjectReader.h). */
module SerdeVisitors {
  import opened Prelude
  import opened Serde
  import opened SerdeRoundTrip

  class SchemaBuilder {
    var fields: seq<Column>
    var parts: seq<string>

    constructor () {
      fields, parts := [], [];
    }

    method GetSchema(ty: Ty) returns (schema: seq<Column>)
      modifies this
      ensures schema == Columns(ty, "", [])
    {
      fields, parts := [], [];
      Visit(ty, "");
      schema := fields;
    }

    method GetFieldFullName(k: string) returns (name: string)
      modifies this`parts
      ensures name == FullName(parts, k) && parts == old(parts)
    {
      parts := parts + [FilterOutInvalidChars(k)];
      name := Joined(parts);
      parts := parts[..|parts| - 1];
    }

    method Push(k: string, kind: Kind)
      modifies this
      ensures fields == old(fields) + [Column(FullName(parts, k), kind)] && parts == old(parts)
    {
      var name := GetFieldFullName(k);
      fields := fields + [Column(name, kind)];
    }

    method Visit(ty: Ty, k: string)
      modifies this
      ensures fields == old(fields) + Columns(ty, k, parts) && parts == old(parts)
      decreases ty, 0
    {
      hide FullName, Inside, StatusColumns;
      match ty {
        case TBool => Push(k, BoolKind);
        case TInt(bits, signed) => Push(k, IntKind(bits, signed));
        case TEnum(_) => Push(k, IntKind(32, true));
        case TStr => Push(k, TextKind);
        case TStrong(under) => Visit(under, k);
        case TConv(_, _, under, _) => Visit(under, k);
        case TStruct(members) => VisitStruct(members, k);
        case TVariant(alts) => VisitVariant(alts, k);
        case TExpected(value) => VisitExpected(value, k);
        case TList(_) => Push(k, TextKind);
        case TOptional(_) => Push(k, TextKind);
      }
    }

    method VisitVariant(alts: Fields, k: string)
      modifies this
      ensures fields == old(fields) + Columns(TVariant(alts), k, parts) && parts == old(parts)
      decreases alts, 1
    {
      hide FullName;
      Push(k + VARIANT_INDEX_SUFFIX, IntKind(32, false));
      VisitAlternatives(alts, k);
    }

    method VisitExpected(value: Ty, k: string)
      modifies this
      ensures fields == old(fields) + Columns(TExpected(value), k, parts) && parts == old(parts)
      decreases value, 1
    {
      hide StatusColumns;
      VisitStatus(k + ERROR_SUFFIX);
      Visit(value, k);
    }

    method VisitStruct(members: Fields, k: string)
      modifies this
      ensures fields == old(fields) + FieldColumns(members, Inside(parts, k)) && parts == old(parts)
      decreases members, 1
    {
      hide FieldColumns;
      if k != "" { parts := parts + [FilterOutInvalidChars(k)]; }
      VisitFields(members);
      if k != "" { parts := parts[..|parts| - 1]; }
    }

    method VisitFields(members: Fields)
      modifies this
      ensures fields == old(fields) + FieldColumns(members, parts) && parts == old(parts)
      decreases members, 0
    {
      match members {
        case NoFields =>
        case Field(name, ty, _, rest) =>
          Visit(ty, name);
          VisitFields(rest);
      }
    }

    method VisitAlternatives(alts: Fields, k: string)
      modifies this
      ensures fields == old(fields) + AltColumns(alts, k, parts) && parts == old(parts)
      decreases alts, 0
    {
      match alts {
        case NoFields =>
        case Field(name, ty, _, rest) =>
          Visit(ty, k + name);
          VisitAlternatives(rest, k);
      }
    }

    method VisitStatus(k: string)
      modifies this
      ensures fields == old(fields) + StatusColumns(k, parts) && parts == old(parts)
    {
      if k != "" { parts := parts + [FilterOutInvalidChars(k)]; }
      Push("code", IntKind(16, false));
      Push("msg", TextKind);
      if k != "" { parts := parts[..|parts| - 1]; }
    }
  }

  /** The next columns of the schema take these cells. */
  predicate Fits(schema: seq<Column>, at: int, cells: seq<Cell>) {
    0 <= at && at + |cells| <= |schema| && forall i :: 0 <= i < |cells| ==> schema[at + i].kind == KindOf(cells[i])
  }

  lemma FitsAppend(schema: seq<Column>, at: int, a: seq<Cell>, b: seq<Cell>)
    requires Fits(schema, at, a + b)
    ensures Fits(schema, at, a) && Fits(schema, at + |a|, b)
  {
    forall i | 0 <= i < |a| ensures schema[at + i].kind == KindOf(a[i]) { assert (a + b)[i] == a[i]; }
    forall i | 0 <= i < |b| ensures schema[at + |a| + i].kind == KindOf(b[i]) { assert (a + b)[|a| + i] == b[i]; }
  }

  lemma {:induction false} CellKindsAt(cells: seq<Cell>, i: int)
    requires 0 <= i < |cells|
    ensures CellKinds(cells)[i] == KindOf(cells[i])
    decreases |cells|
  {
    if i > 0 { CellKindsAt(cells[1..], i - 1); }
  }

  lemma {:induction false} ColumnKindsAt(columns: seq<Column>, i: int)
    requires 0 <= i < |columns|
    ensures ColumnKinds(columns)[i] == columns[i].kind
    decreases |columns|
  {
    if i > 0 { ColumnKindsAt(columns[1..], i - 1); }
  }

  lemma ExpectedCells(value: Ty, v: Val)
    requires Proper(value) && HasType(TExpected(value), v) && HasType(value, Default(value))
    ensures Encode(TExpected(value), v)
         == if v.VOk? then StatusCells(0, "") + Encode(value, v.val)
            else StatusCells(v.code, v.msg) + Encode(value, Default(value))
  {
  }

  /** A row of a type fits the schema of that type. */
  lemma RowFits(ty: Ty, v: Val)
    requires Proper(ty) && HasType(ty, v)
    ensures |Columns(ty, "", [])| == |Encode(ty, v)| && Fits(Columns(ty, "", []), 0, Encode(ty, v))
  {
    hide Columns, Encode;
    WriterColumns(ty, v, "", []);
    var schema, cells := Columns(ty, "", []), Encode(ty, v);
    assert |ColumnKinds(schema)| == |CellKinds(cells)|;
    forall i | 0 <= i < |cells| ensures schema[0 + i].kind == KindOf(cells[i]) {
      CellKindsAt(cells, i);
      ColumnKindsAt(schema, i);
    }
  }

  /** A stream of rows under a schema. A cell of the wrong kind, or a row of the wrong length, would throw. */
  class ObjectWriter {
    const ty: Ty
    const schema: seq<Column>
    var row: seq<Cell>
    var rows: seq<seq<Cell>>

    ghost predicate Valid()
      reads this
    {
      Proper(ty) && schema == Columns(ty, "", []) && row == []
    }

    constructor (ty: Ty)
      requires Proper(ty)
      ensures Valid() && this.ty == ty && rows == []
    {
      var builder := new SchemaBuilder();
      var columns := builder.GetSchema(ty);
      this.ty, schema, row, rows := ty, columns, [], [];
    }

    method Put(cell: Cell)
      requires Fits(schema, |row|, [cell])
      modifies this`row
      ensures row == old(row) + [cell]
    {
      row := row + [cell];
    }

    method EndRow()
      requires |row| == |schema|
      modifies this
      ensures row == [] && rows == old(rows) + [old(row)]
    {
      rows, row := rows + [row], [];
    }

    /** Writes one object. */
    method Write(v: Val)
      requires Valid() && HasType(ty, v)
      modifies this
      ensures Valid() && rows == old(rows) + [Encode(ty, v)]
    {
      hide Encode, Columns, Fits, HasType, Proper;
      RowFits(ty, v);
      Visit(ty, v);
      assert row == Encode(ty, v);
      EndRow();
    }

    method Visit(t: Ty, v: Val)
      requires Proper(t) && HasType(t, v) && Fits(schema, |row|, Encode(t, v))
      modifies this`row
      ensures row == old(row) + Encode(t, v)
      decreases t, 0
    {
      match t {
        case TBool => Put(BoolCell(v.b));
        case TInt(bits, signed) => Put(IntCell(bits, signed, v.n));
        case TEnum(_) => Put(IntCell(32, true, v.n));
        case TStr => Put(TextCell(v.s));
        case TStrong(under) => Visit(under, v);
        case TConv(to, _, under, _) => Visit(under, to(v));
        case TStruct(fields) => VisitFields(fields, v.vals);
        case TVariant(alts) =>
          FitsAppend(schema, |row|, [IntCell(32, false, v.index)], EncodeAlts(alts, v.index, v.val));
          Put(IntCell(32, false, v.index));
          VisitAlternatives(alts, v.index, v.val);
        case TExpected(value) => VisitExpected(value, v);
        case TList(json) => Put(TextCell(json.text(v)));
        case TOptional(json) =>
          if v.VNone? { Put(TextCell("")); } else { Put(TextCell(json.text(v.val))); }
      }
    }

    method VisitExpected(value: Ty, v: Val)
      requires Proper(TExpected(value)) && HasType(TExpected(value), v)
      requires Fits(schema, |row|, Encode(TExpected(value), v))
      modifies this`row
      ensures row == old(row) + Encode(TExpected(value), v)
      decreases value, 1
    {
      hide Encode, Fits, StatusCells;
      DefaultTyped(value);
      ExpectedCells(value, v);
      if v.VOk? {
        FitsAppend(schema, |row|, StatusCells(0, ""), Encode(value, v.val));
        VisitStatus(0, "");
        Visit(value, v.val);
      } else {
        FitsAppend(schema, |row|, StatusCells(v.code, v.msg), Encode(value, Default(value)));
        VisitStatus(v.code, v.msg);
        Visit(value, Default(value));
      }
    }

    method VisitStatus(code: int, msg: string)
      requires Fits(schema, |row|, StatusCells(code, msg))
      modifies this`row
      ensures row == old(row) + StatusCells(code, msg)
    {
      assert StatusCells(code, msg) == [IntCell(16, false, code)] + [TextCell(msg)];
      FitsAppend(schema, |row|, [IntCell(16, false, code)], [TextCell(msg)]);
      Put(IntCell(16, false, code));
      Put(TextCell(msg));
    }

    method VisitFields(fields: Fields, vals: Vals)
      requires ProperFields(fields) && HaveTypes(fields, vals) && Fits(schema, |row|, EncodeFields(fields, vals))
      modifies this`row
      ensures row == old(row) + EncodeFields(fields, vals)
      decreases fields, 0
    {
      match fields {
        case NoFields =>
        case Field(_, t, _, rest) =>
          FitsAppend(schema, |row|, Encode(t, vals.head), EncodeFields(rest, vals.tail));
          Visit(t, vals.head);
          VisitFields(rest, vals.tail);
      }
    }

    method VisitAlternatives(alts: Fields, i: int, v: Val)
      requires ProperFields(alts) && (0 <= i ==> AltHasType(alts, i, v)) && Fits(schema, |row|, EncodeAlts(alts, i, v))
      modifies this`row
      ensures row == old(row) + EncodeAlts(alts, i, v)
      decreases alts, 0
    {
      hide Encode, Fits, HasType, Proper, Default;
      match alts {
        case NoFields =>
        case Field(_, t, _, rest) =>
          DefaultTyped(t);
          var x := if i == 0 then v else Default(t);
          FitsAppend(schema, |row|, Encode(t, x), EncodeAlts(rest, i - 1, v));
          Visit(t, x);
          VisitAlternatives(rest, i - 1, v);
      }
    }
  }

  /** A stream of rows to read; `cells` is what is left of the current one. */
  class ObjectReader {
    var cells: seq<Cell>

    constructor (row: seq<Cell>)
      ensures cells == row
    {
      cells := row;
    }

    /** Reads one cell of the given kind, or throws. */
    method Take(kind: Kind) returns (cell: Option<Cell>)
      modifies this
      ensures cell.Some? <==> old(cells) != [] && KindOf(old(cells)[0]) == kind
      ensures cell.Some? ==> cell.value == old(cells)[0] && cells == old(cells)[1..]
    {
      if cells == [] || KindOf(cells[0]) != kind { return None; }
      cell := Some(cells[0]);
      cells := cells[1..];
    }

    /** Reads one object into a variable that held `was`. */
    method Read(ty: Ty, was: Val) returns (v: Option<Val>)
      modifies this
      ensures var d := Decode(ty, was, old(cells));
        (v.Some? <==> d.Some? && d.value.1 == []) && (v.Some? ==> v.value == d.value.0)
    {
      v := Visit(ty, was);
      if v.Some? && cells != [] { return None; }
    }

    method Visit(ty: Ty, was: Val) returns (v: Option<Val>)
      modifies this
      ensures var d := Decode(ty, was, old(cells));
        (v.Some? <==> d.Some?) && (v.Some? ==> d.value == (v.value, cells))
      decreases ty, 0
    {
      match ty {
        case TBool =>
          var cell := Take(BoolKind);
          return if cell.None? then None else Some(VBool(cell.value.b));
        case TInt(bits, signed) =>
          var cell := Take(IntKind(bits, signed));
          return if cell.None? then None else Some(VInt(cell.value.n));
        case TEnum(named) =>
          var cell := Take(IntKind(32, true));
          return if cell.None? then None else Some(if cell.value.n in named then VInt(cell.value.n) else was);
        case TStr =>
          var cell := Take(TextKind);
          return if cell.None? then None else Some(VStr(cell.value.s));
        case TStrong(under) => v := Visit(under, was);
        case TConv(_, from, under, _) =>
          var serialized := Visit(under, Default(under));
          if serialized.None? { return None; }
          var result := from(serialized.value);
          return if result.Some? then result else Some(was);
        case TStruct(fields) =>
          var vals := VisitFields(fields, if was.VStruct? then was.vals else Defaults(fields));
          return if vals.None? then None else Some(VStruct(vals.value));
        case TVariant(alts) =>
          var cell := Take(IntKind(32, false));
          if cell.None? { return None; }
          v := VisitAlternatives(alts, 0, cell.value.n, was);
        case TExpected(value) => v := VisitExpected(value, was);
        case TList(json) =>
          var cell := Take(TextKind);
          if cell.None? { return None; }
          var result := json.parse(cell.value.s);
          return if result.Some? then result else Some(was);
        case TOptional(json) =>
          var cell := Take(TextKind);
          if cell.None? { return None; }
          if cell.value.s == "" { return Some(VNone); }
          var result := json.parse(cell.value.s);
          return Some(VSome(if result.Some? then result.value else json.dflt));
      }
    }

    method VisitExpected(value: Ty, was: Val) returns (v: Option<Val>)
      modifies this
      ensures var d := Decode(TExpected(value), was, old(cells));
        (v.Some? <==> d.Some?) && (v.Some? ==> d.value == (v.value, cells))
      decreases value, 1
    {
      var code := Take(IntKind(16, false));
      if code.None? { return None; }
      var msg := Take(TextKind);
      if msg.None? { return None; }
      assert cells == old(cells)[2..];
      var x := Visit(value, Default(value));
      if x.None? { return None; }
      return Some(if code.value.n == 0 then VOk(x.value) else VErr(code.value.n, msg.value.s));
    }

    method VisitFields(fields: Fields, was: Vals) returns (vals: Option<Vals>)
      modifies this
      ensures var d := DecodeFields(fields, was, old(cells));
        (vals.Some? <==> d.Some?) && (vals.Some? ==> d.value == (vals.value, cells))
      decreases fields, 0
    {
      match fields {
        case NoFields => return Some(NoVals);
        case Field(_, ty, dflt, rest) =>
          var v := Visit(ty, if was.Vals? then was.head else dflt);
          if v.None? { return None; }
          var others := VisitFields(rest, if was.Vals? then was.tail else NoVals);
          return if others.None? then None else Some(Vals(v.value, others.value));
      }
    }

    method VisitAlternatives(alts: Fields, at: int, index: int, was: Val) returns (v: Option<Val>)
      modifies this
      ensures var d := DecodeAlts(alts, at, index, was, old(cells));
        (v.Some? <==> d.Some?) && (v.Some? ==> d.value == (v.value, cells))
      decreases alts, 0
    {
      match alts {
        case NoFields => return Some(was);
        case Field(_, ty, _, rest) =>
          var alt := Visit(ty, Default(ty));
          if alt.None? { return None; }
          v := VisitAlternatives(rest, at + 1, index, if at == index then VVariant(index, alt.value) else was);
      }
    }
  }
}
