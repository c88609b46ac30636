/** Reading rows back (src/analytics/SerdeObjectReader.h), and what schema, writer and reader agree on. */
module SerdeRoundTrip {
  import opened Prelude
  import opened Serde

  /** What reading one value comes to: the value and the cells behind it, or None when a cell is missing or has
      the wrong kind. */
  type Decoded = Option<(Val, seq<Cell>)>

  /** The value of a variable of type `ty` that held `was`, after reading into it. */
  function Decode(ty: Ty, was: Val, cells: seq<Cell>): Decoded
    decreases ty
  {
    match ty
    case TBool => if cells != [] && cells[0].BoolCell? then Some((VBool(cells[0].b), cells[1..])) else None
    case TInt(bits, signed) =>
      if cells != [] && KindOf(cells[0]) == IntKind(bits, signed) then Some((VInt(cells[0].n), cells[1..])) else None
    case TEnum(named) =>
      if cells != [] && KindOf(cells[0]) == IntKind(32, true)
      then Some((if cells[0].n in named then VInt(cells[0].n) else was, cells[1..])) else None
    case TStr => if cells != [] && cells[0].TextCell? then Some((VStr(cells[0].s), cells[1..])) else None
    case TStrong(under) => Decode(under, was, cells)
    case TConv(_, from, under, _) =>
      var d := Decode(under, Default(under), cells);
      if d.None? then None
      else Some((if from(d.value.0).Some? then from(d.value.0).value else was, d.value.1))
    case TStruct(fields) =>
      var d := DecodeFields(fields, if was.VStruct? then was.vals else Defaults(fields), cells);
      if d.None? then None else Some((VStruct(d.value.0), d.value.1))
    case TVariant(alts) =>
      if cells != [] && KindOf(cells[0]) == IntKind(32, false) then DecodeAlts(alts, 0, cells[0].n, was, cells[1..])
      else None
    case TExpected(value) =>
      if |cells| >= 2 && KindOf(cells[0]) == IntKind(16, false) && cells[1].TextCell? then
        var d := Decode(value, Default(value), cells[2..]);
        if d.None? then None
        else Some((if cells[0].n == 0 then VOk(d.value.0) else VErr(cells[0].n, cells[1].s), d.value.1))
      else None
    case TList(json) =>
      if cells != [] && cells[0].TextCell?
      then Some((if json.parse(cells[0].s).Some? then json.parse(cells[0].s).value else was, cells[1..])) else None
    case TOptional(json) =>
      if cells != [] && cells[0].TextCell?
      then Some((if cells[0].s == "" then VNone
                 else VSome(if json.parse(cells[0].s).Some? then json.parse(cells[0].s).value else json.dflt),
                 cells[1..]))
      else None
  }

  function DecodeFields(fields: Fields, was: Vals, cells: seq<Cell>): Option<(Vals, seq<Cell>)>
    decreases fields
  {
    match fields
    case NoFields => Some((NoVals, cells))
    case Field(_, ty, dflt, rest) =>
      var d := Decode(ty, if was.Vals? then was.head else dflt, cells);
      if d.None? then None
      else
        var ds := DecodeFields(rest, if was.Vals? then was.tail else NoVals, d.value.1);
        if ds.None? then None else Some((Vals(d.value.0, ds.value.0), ds.value.1))
  }

  /** Every alternative is read; the one at `index` is kept. */
  function DecodeAlts(alts: Fields, at: int, index: int, was: Val, cells: seq<Cell>): Decoded
    decreases alts
  {
    match alts
    case NoFields => Some((was, cells))
    case Field(_, ty, _, rest) =>
      var d := Decode(ty, Default(ty), cells);
      if d.None? then None
      else DecodeAlts(rest, at + 1, index, if at == index then VVariant(index, d.value.0) else was, d.value.1)
  }

  // ---------- the same columns ----------

  lemma {:induction false} WriterColumns(ty: Ty, v: Val, k: string, parts: seq<string>)
    requires Proper(ty) && HasType(ty, v)
    ensures CellKinds(Encode(ty, v)) == ColumnKinds(Columns(ty, k, parts))
    decreases ty
  {
    match ty
    case TStrong(under) => WriterColumns(under, v, k, parts);
    case TConv(to, _, under, _) => WriterColumns(under, to(v), k, parts);
    case TStruct(fields) => WriterFieldColumns(fields, v.vals, Inside(parts, k));
    case TVariant(alts) =>
      WriterAltColumns(alts, v.index, v.val, k, parts);
    case TExpected(value) =>
      DefaultTyped(value);
      var status := if v.VOk? then StatusCells(0, "") else StatusCells(v.code, v.msg);
      var x := if v.VOk? then v.val else Default(value);
      WriterColumns(value, x, k, parts);
      CellKindsAppend(status, Encode(value, x));
      ColumnKindsAppend(StatusColumns(k + ERROR_SUFFIX, parts), Columns(value, k, parts));
    case _ =>
  }

  lemma {:induction false} WriterFieldColumns(fields: Fields, vals: Vals, parts: seq<string>)
    requires ProperFields(fields) && HaveTypes(fields, vals)
    ensures CellKinds(EncodeFields(fields, vals)) == ColumnKinds(FieldColumns(fields, parts))
    decreases fields
  {
    match fields
    case NoFields =>
    case Field(name, ty, _, rest) =>
      WriterColumns(ty, vals.head, name, parts);
      WriterFieldColumns(rest, vals.tail, parts);
      CellKindsAppend(Encode(ty, vals.head), EncodeFields(rest, vals.tail));
      ColumnKindsAppend(Columns(ty, name, parts), FieldColumns(rest, parts));
  }

  lemma {:induction false} WriterAltColumns(alts: Fields, i: int, v: Val, k: string, parts: seq<string>)
    requires ProperFields(alts) && (0 <= i ==> AltHasType(alts, i, v))
    ensures CellKinds(EncodeAlts(alts, i, v)) == ColumnKinds(AltColumns(alts, k, parts))
    decreases alts
  {
    match alts
    case NoFields =>
    case Field(name, ty, _, rest) =>
      DefaultTyped(ty);
      var x := if i == 0 then v else Default(ty);
      WriterColumns(ty, x, k + name, parts);
      WriterAltColumns(rest, i - 1, v, k, parts);
      CellKindsAppend(Encode(ty, x), EncodeAlts(rest, i - 1, v));
      ColumnKindsAppend(Columns(ty, k + name, parts), AltColumns(rest, k, parts));
  }

  lemma {:induction false} CellKindsDrop(cells: seq<Cell>, n: int)
    requires 0 <= n <= |cells|
    ensures CellKinds(cells[n..]) == CellKinds(cells)[n..]
    decreases n
  {
    if n > 0 {
      CellKindsDrop(cells[1..], n - 1);
      assert cells[1..][n - 1..] == cells[n..];
    }
  }

  /** The cells start with these columns. */
  predicate StartsWith(cells: seq<Cell>, columns: seq<Column>) { ColumnKinds(columns) <= CellKinds(cells) }

  lemma StartsWithAppend(cells: seq<Cell>, a: seq<Column>, b: seq<Column>)
    ensures StartsWith(cells, a + b) <==> StartsWith(cells, a) && StartsWith(cells[|a|..], b)
  {
    ColumnKindsAppend(a, b);
    if |a| <= |cells| {
      CellKindsDrop(cells, |a|);
      var ca, cb, cc := ColumnKinds(a), ColumnKinds(b), CellKinds(cells);
      if ca + cb <= cc {
        assert ca == (ca + cb)[..|a|] == cc[..|a|];
        assert cb == (ca + cb)[|a|..] == cc[|a|..][..|b|];
      }
      if ca <= cc && cb <= cc[|a|..] { assert cc[..|a| + |b|] == ca + cb; }
    }
  }

  /** Reading succeeds and leaves exactly the cells behind the columns of the type. */
  predicate Walks(d: Option<seq<Cell>>, cells: seq<Cell>, columns: seq<Column>) {
    && (d.Some? <==> StartsWith(cells, columns))
    && (d.Some? ==> |columns| <= |cells| && d.value == cells[|columns|..])
  }

  function RestOf<T>(d: Option<(T, seq<Cell>)>): Option<seq<Cell>> { if d.None? then None else Some(d.value.1) }

  lemma WalksAppend(d: Option<seq<Cell>>, e: Option<seq<Cell>>, cells: seq<Cell>, a: seq<Column>, b: seq<Column>)
    requires Walks(d, cells, a) && (d.None? ==> e.None?) && (d.Some? ==> Walks(e, d.value, b))
    ensures Walks(e, cells, a + b)
  {
    StartsWithAppend(cells, a, b);
  }

  lemma OneColumn(cells: seq<Cell>, c: Column)
    ensures StartsWith(cells, [c]) <==> cells != [] && KindOf(cells[0]) == c.kind
  {
    assert ColumnKinds([c]) == [c.kind];
    if cells != [] { assert CellKinds(cells)[..1] == [KindOf(cells[0])]; }
  }

  lemma StatusWalks(cells: seq<Cell>, a: seq<Column>)
    requires |a| == 2 && a[0].kind == IntKind(16, false) && a[1].kind == TextKind
    ensures StartsWith(cells, a) <==> |cells| >= 2 && KindOf(cells[0]) == IntKind(16, false) && cells[1].TextCell?
  {
    assert a == [a[0]] + [a[1]];
    StartsWithAppend(cells, [a[0]], [a[1]]);
    OneColumn(cells, a[0]);
    if cells != [] { OneColumn(cells[1..], a[1]); }
  }

  lemma VariantColumns(alts: Fields, was: Val, cells: seq<Cell>, k: string, parts: seq<string>)
    requires cells != [] && cells[0].IntCell? ==>
      Walks(RestOf(DecodeAlts(alts, 0, cells[0].n, was, cells[1..])), cells[1..], AltColumns(alts, k, parts))
    ensures Walks(RestOf(Decode(TVariant(alts), was, cells)), cells, Columns(TVariant(alts), k, parts))
  {
    hide StartsWith, DecodeAlts, AltColumns;
    var c := Column(FullName(parts, k + VARIANT_INDEX_SUFFIX), IntKind(32, false));
    OneColumn(cells, c);
    if cells != [] && KindOf(cells[0]) == c.kind {
      WalksAppend(Some(cells[1..]), RestOf(Decode(TVariant(alts), was, cells)), cells, [c], AltColumns(alts, k, parts));
    } else {
      WalksAppend(None, None, cells, [c], AltColumns(alts, k, parts));
    }
  }

  lemma ExpectedColumns(value: Ty, was: Val, cells: seq<Cell>, k: string, parts: seq<string>)
    requires |cells| >= 2 ==>
      Walks(RestOf(Decode(value, Default(value), cells[2..])), cells[2..], Columns(value, k, parts))
    ensures Walks(RestOf(Decode(TExpected(value), was, cells)), cells, Columns(TExpected(value), k, parts))
  {
    hide StartsWith, Default;
    var a := StatusColumns(k + ERROR_SUFFIX, parts);
    StatusWalks(cells, a);
    if |cells| >= 2 && KindOf(cells[0]) == IntKind(16, false) && cells[1].TextCell? {
      WalksAppend(Some(cells[2..]), RestOf(Decode(TExpected(value), was, cells)), cells, a, Columns(value, k, parts));
    } else {
      WalksAppend(None, None, cells, a, Columns(value, k, parts));
    }
  }

  /** The reader accepts a row exactly when it starts with the columns of the schema, and consumes exactly those. */
  lemma {:induction false} ReaderColumns(ty: Ty, was: Val, cells: seq<Cell>, k: string, parts: seq<string>)
    ensures Walks(RestOf(Decode(ty, was, cells)), cells, Columns(ty, k, parts))
    decreases ty
  {
    hide StartsWith;
    match ty
    case TStrong(under) => ReaderColumns(under, was, cells, k, parts);
    case TConv(_, _, under, _) => ReaderColumns(under, Default(under), cells, k, parts);
    case TStruct(fields) =>
      ReaderFieldColumns(fields, if was.VStruct? then was.vals else Defaults(fields), cells, Inside(parts, k));
    case TVariant(alts) =>
      if cells != [] && cells[0].IntCell? { ReaderAltColumns(alts, 0, cells[0].n, was, cells[1..], k, parts); }
      VariantColumns(alts, was, cells, k, parts);
    case TExpected(value) =>
      if |cells| >= 2 { ReaderColumns(value, Default(value), cells[2..], k, parts); }
      ExpectedColumns(value, was, cells, k, parts);
    case _ => OneColumn(cells, Columns(ty, k, parts)[0]);
  }

  lemma {:induction false} ReaderFieldColumns(fields: Fields, was: Vals, cells: seq<Cell>, parts: seq<string>)
    ensures Walks(RestOf(DecodeFields(fields, was, cells)), cells, FieldColumns(fields, parts))
    decreases fields
  {
    hide StartsWith, Decode;
    match fields
    case NoFields => assert StartsWith(cells, []) by { NoColumns(cells); }
    case Field(name, ty, dflt, rest) =>
      var d := Decode(ty, if was.Vals? then was.head else dflt, cells);
      ReaderColumns(ty, if was.Vals? then was.head else dflt, cells, name, parts);
      if d.Some? { ReaderFieldColumns(rest, if was.Vals? then was.tail else NoVals, d.value.1, parts); }
      WalksAppend(RestOf(d), RestOf(DecodeFields(fields, was, cells)), cells, Columns(ty, name, parts),
                  FieldColumns(rest, parts));
  }

  lemma NoColumns(cells: seq<Cell>)
    ensures StartsWith(cells, [])
  {
  }

  lemma {:induction false} ReaderAltColumns(alts: Fields, at: int, index: int, was: Val, cells: seq<Cell>, k: string,
                                            parts: seq<string>)
    ensures Walks(RestOf(DecodeAlts(alts, at, index, was, cells)), cells, AltColumns(alts, k, parts))
    decreases alts
  {
    hide StartsWith, Decode;
    match alts
    case NoFields => assert StartsWith(cells, []) by { NoColumns(cells); }
    case Field(name, ty, _, rest) =>
      var d := Decode(ty, Default(ty), cells);
      ReaderColumns(ty, Default(ty), cells, k + name, parts);
      if d.Some? {
        ReaderAltColumns(rest, at + 1, index, if at == index then VVariant(index, d.value.0) else was, d.value.1, k,
                         parts);
      }
      WalksAppend(RestOf(d), RestOf(DecodeAlts(alts, at, index, was, cells)), cells, Columns(ty, k + name, parts),
                  AltColumns(rest, k, parts));
  }

  // ---------- round trip ----------

  /** What a written value reads back as, into a variable that held `was`. */
  function Reread(ty: Ty, was: Val, v: Val): Val
    requires Proper(ty) && HasType(ty, v)
    decreases ty
  {
    match ty
    case TEnum(named) => if v.n in named then v else was
    case TStrong(under) => Reread(under, was, v)
    case TConv(to, from, under, _) =>
      var s := Reread(under, Default(under), to(v));
      if from(s).Some? then from(s).value else was
    case TStruct(fields) => VStruct(RereadFields(fields, if was.VStruct? then was.vals else Defaults(fields), v.vals))
    case TVariant(alts) => VVariant(v.index, RereadAlt(alts, v.index, v.val))
    case TExpected(value) =>
      DefaultTyped(value);
      if v.VErr? && v.code != 0 then v
      else VOk(Reread(value, Default(value), if v.VOk? then v.val else Default(value)))
    case TList(json) => if json.parse(json.text(v)).Some? then json.parse(json.text(v)).value else was
    case TOptional(json) =>
      if v.VNone? || json.text(v.val) == "" then VNone
      else VSome(if json.parse(json.text(v.val)).Some? then json.parse(json.text(v.val)).value else json.dflt)
    case _ => v
  }

  function RereadFields(fields: Fields, was: Vals, vals: Vals): Vals
    requires ProperFields(fields) && HaveTypes(fields, vals)
    decreases fields
  {
    match fields
    case NoFields => NoVals
    case Field(_, ty, dflt, rest) =>
      Vals(Reread(ty, if was.Vals? then was.head else dflt, vals.head),
           RereadFields(rest, if was.Vals? then was.tail else NoVals, vals.tail))
  }

  function RereadAlt(alts: Fields, i: int, v: Val): Val
    requires ProperFields(alts) && AltHasType(alts, i, v)
    decreases alts
  {
    if i == 0 then Reread(alts.ty, Default(alts.ty), v) else RereadAlt(alts.rest, i - 1, v)
  }

  lemma LeafReadWritten(ty: Ty, was: Val, v: Val, tail: seq<Cell>)
    requires Proper(ty) && HasType(ty, v)
    requires ty.TBool? || ty.TInt? || ty.TEnum? || ty.TStr? || ty.TList? || ty.TOptional?
    ensures Decode(ty, was, Encode(ty, v) + tail) == Some((Reread(ty, was, v), tail))
  {
    assert (Encode(ty, v) + tail)[1..] == tail;
  }

  lemma VariantReadWritten(alts: Fields, was: Val, v: Val, tail: seq<Cell>)
    requires Proper(TVariant(alts)) && HasType(TVariant(alts), v)
    requires DecodeAlts(alts, 0, v.index, was, EncodeAlts(alts, v.index, v.val) + tail)
          == Some((VVariant(v.index, RereadAlt(alts, v.index, v.val)), tail))
    ensures Decode(TVariant(alts), was, Encode(TVariant(alts), v) + tail)
         == Some((Reread(TVariant(alts), was, v), tail))
  {
    var index, cells := [IntCell(32, false, v.index)], EncodeAlts(alts, v.index, v.val);
    assert Encode(TVariant(alts), v) + tail == index + (cells + tail);
    assert (index + (cells + tail))[1..] == cells + tail;
  }

  lemma ExpectedWritten(value: Ty, v: Val, x: Val, tail: seq<Cell>)
    requires Proper(TExpected(value)) && HasType(TExpected(value), v)
    requires x == (if v.VOk? then v.val else Default(value)) && HasType(value, x)
    ensures Encode(TExpected(value), v) + tail
         == (if v.VOk? then StatusCells(0, "") else StatusCells(v.code, v.msg)) + (Encode(value, x) + tail)
  {
    hide StatusCells;
  }

  lemma ExpectedReadWritten(value: Ty, was: Val, v: Val, x: Val, tail: seq<Cell>)
    requires Proper(TExpected(value)) && HasType(TExpected(value), v) && HasType(value, Default(value))
    requires x == (if v.VOk? then v.val else Default(value)) && HasType(value, x)
    requires Decode(value, Default(value), Encode(value, x) + tail) == Some((Reread(value, Default(value), x), tail))
    ensures Decode(TExpected(value), was, Encode(TExpected(value), v) + tail)
         == Some((Reread(TExpected(value), was, v), tail))
  {
    var status := if v.VOk? then StatusCells(0, "") else StatusCells(v.code, v.msg);
    var rest := Encode(value, x) + tail;
    var cells := status + rest;
    ExpectedWritten(value, v, x, tail);
    hide Encode, HasType, Proper, Default;
    assert cells[0] == status[0] && cells[1] == status[1] && cells[2..] == rest;
  }

  /** Reading a written value never fails, and comes to `Reread`, whatever follows in the row. */
  lemma {:induction false} ReadWritten(ty: Ty, was: Val, v: Val, tail: seq<Cell>)
    requires Proper(ty) && HasType(ty, v)
    ensures Decode(ty, was, Encode(ty, v) + tail) == Some((Reread(ty, was, v), tail))
    decreases ty
  {
    match ty
    case TStrong(under) => ReadWritten(under, was, v, tail);
    case TConv(to, _, under, _) => ReadWritten(under, Default(under), to(v), tail);
    case TStruct(fields) =>
      ReadWrittenFields(fields, if was.VStruct? then was.vals else Defaults(fields), v.vals, tail);
    case TVariant(alts) =>
      AltIndex(alts, v.index, v.val);
      ReadWrittenAlts(alts, 0, v.index, was, v.val, tail);
      VariantReadWritten(alts, was, v, tail);
    case TExpected(value) =>
      DefaultTyped(value);
      var x := if v.VOk? then v.val else Default(value);
      ReadWritten(value, Default(value), x, tail);
      ExpectedReadWritten(value, was, v, x, tail);
    case _ => LeafReadWritten(ty, was, v, tail);
  }

  lemma {:induction false} ReadWrittenFields(fields: Fields, was: Vals, vals: Vals, tail: seq<Cell>)
    requires ProperFields(fields) && HaveTypes(fields, vals)
    ensures DecodeFields(fields, was, EncodeFields(fields, vals) + tail)
         == Some((RereadFields(fields, was, vals), tail))
    decreases fields
  {
    hide Decode, Reread, Encode;
    match fields
    case NoFields => assert EncodeFields(fields, vals) + tail == tail;
    case Field(_, ty, dflt, rest) =>
      var first, others := Encode(ty, vals.head), EncodeFields(rest, vals.tail);
      assert first + others + tail == first + (others + tail);
      ReadWritten(ty, if was.Vals? then was.head else dflt, vals.head, others + tail);
      ReadWrittenFields(rest, if was.Vals? then was.tail else NoVals, vals.tail, tail);
  }

  lemma {:induction false} AltIndex(alts: Fields, i: int, v: Val)
    requires AltHasType(alts, i, v)
    ensures 0 <= i
    decreases alts
  {
    if i != 0 { AltIndex(alts.rest, i - 1, v); }
  }

  lemma NextAlternative(alts: Fields, at: int, index: int, was: Val, v: Val, x: Val, tail: seq<Cell>)
    requires alts.Field? && ProperFields(alts)
    requires (at <= index ==> AltHasType(alts, index - at, v)) && HasType(alts.ty, Default(alts.ty))
    requires x == (if index == at then v else Default(alts.ty))
    ensures HasType(alts.ty, x) && (at + 1 <= index ==> AltHasType(alts.rest, index - at - 1, v))
    ensures EncodeAlts(alts, index - at, v) + tail
         == Encode(alts.ty, x) + (EncodeAlts(alts.rest, index - at - 1, v) + tail)
  {
    hide Encode;
    assert Encode(alts.ty, x) + EncodeAlts(alts.rest, index - at - 1, v) + tail
        == Encode(alts.ty, x) + (EncodeAlts(alts.rest, index - at - 1, v) + tail);
  }

  /** From the alternative at `at` on; once it is passed the variant keeps its value. */
  lemma {:induction false} ReadWrittenAlts(alts: Fields, at: int, index: int, was: Val, v: Val, tail: seq<Cell>)
    requires ProperFields(alts) && (at <= index ==> AltHasType(alts, index - at, v))
    ensures DecodeAlts(alts, at, index, was, EncodeAlts(alts, index - at, v) + tail)
         == Some((if at <= index then VVariant(index, RereadAlt(alts, index - at, v)) else was, tail))
    decreases alts
  {
    hide Decode, Reread, Encode, Default, HasType, Proper;
    match alts
    case NoFields => assert EncodeAlts(alts, index - at, v) + tail == tail;
    case Field(_, ty, _, rest) =>
      DefaultTyped(ty);
      var x := if index == at then v else Default(ty);
      NextAlternative(alts, at, index, was, v, x, tail);
      ReadWritten(ty, Default(ty), x, EncodeAlts(rest, index - at - 1, v) + tail);
      ReadWrittenAlts(rest, at + 1, index, if at == index then VVariant(index, Reread(ty, Default(ty), x)) else was, v,
                      tail);
  }

  // ---------- main results ----------

  /** A value survives: enumerators are named, errors are errors, and conversions and JSON give back what they took.
      Where the reader gives up on a value, it must already have been there. */
  predicate Survives(ty: Ty, was: Val, v: Val)
    requires Proper(ty) && HasType(ty, v)
    decreases ty
  {
    match ty
    case TEnum(named) => v.n in named || was == v
    case TStrong(under) => Survives(under, was, v)
    case TConv(to, from, under, _) =>
      var s := Reread(under, Default(under), to(v));
      from(s) == Some(v) || (from(s) == None && was == v)
    case TStruct(fields) => FieldsSurvive(fields, if was.VStruct? then was.vals else Defaults(fields), v.vals)
    case TVariant(alts) => AltSurvives(alts, v.index, v.val)
    case TExpected(value) => if v.VErr? then v.code != 0 else Survives(value, Default(value), v.val)
    case TList(json) => json.parse(json.text(v)) == Some(v) || (json.parse(json.text(v)) == None && was == v)
    case TOptional(json) =>
      v.VNone? || (json.text(v.val) != "" &&
                   var x := json.parse(json.text(v.val)); x == Some(v.val) || (x == None && json.dflt == v.val))
    case _ => true
  }

  predicate FieldsSurvive(fields: Fields, was: Vals, vals: Vals)
    requires ProperFields(fields) && HaveTypes(fields, vals)
    decreases fields
  {
    match fields
    case NoFields => true
    case Field(_, ty, dflt, rest) =>
      && Survives(ty, if was.Vals? then was.head else dflt, vals.head)
      && FieldsSurvive(rest, if was.Vals? then was.tail else NoVals, vals.tail)
  }

  predicate AltSurvives(alts: Fields, i: int, v: Val)
    requires ProperFields(alts) && AltHasType(alts, i, v)
    decreases alts
  {
    if i == 0 then Survives(alts.ty, Default(alts.ty), v) else AltSurvives(alts.rest, i - 1, v)
  }

  lemma {:induction false} SurvivesIff(ty: Ty, was: Val, v: Val)
    requires Proper(ty) && HasType(ty, v)
    ensures Reread(ty, was, v) == v <==> Survives(ty, was, v)
    decreases ty
  {
    match ty
    case TStrong(under) => SurvivesIff(under, was, v);
    case TStruct(fields) => FieldsSurviveIff(fields, if was.VStruct? then was.vals else Defaults(fields), v.vals);
    case TVariant(alts) => AltSurvivesIff(alts, v.index, v.val);
    case TExpected(value) =>
      if v.VOk? { SurvivesIff(value, Default(value), v.val); }
    case _ =>
  }

  lemma {:induction false} FieldsSurviveIff(fields: Fields, was: Vals, vals: Vals)
    requires ProperFields(fields) && HaveTypes(fields, vals)
    ensures RereadFields(fields, was, vals) == vals <==> FieldsSurvive(fields, was, vals)
    decreases fields
  {
    match fields
    case NoFields =>
    case Field(_, ty, dflt, rest) =>
      SurvivesIff(ty, if was.Vals? then was.head else dflt, vals.head);
      FieldsSurviveIff(rest, if was.Vals? then was.tail else NoVals, vals.tail);
  }

  lemma {:induction false} AltSurvivesIff(alts: Fields, i: int, v: Val)
    requires ProperFields(alts) && AltHasType(alts, i, v)
    ensures RereadAlt(alts, i, v) == v <==> AltSurvives(alts, i, v)
    decreases alts
  {
    if i == 0 { SurvivesIff(alts.ty, Default(alts.ty), v); } else { AltSurvivesIff(alts.rest, i - 1, v); }
  }

  /** Reading a written row back returns the original value exactly when the value survives. */
  lemma RoundTrip(ty: Ty, was: Val, v: Val)
    requires Proper(ty) && HasType(ty, v)
    ensures Decode(ty, was, Encode(ty, v)) == Some((v, [])) <==> Survives(ty, was, v)
  {
    hide Decode, Encode, Reread, Survives;
    ReadWritten(ty, was, v, []);
    assert Encode(ty, v) + [] == Encode(ty, v);
    SurvivesIff(ty, was, v);
  }

  /** An enumerator that reflection cannot name is lost: the variable keeps what it held. */
  lemma UnnamedEnumeratorIsLost(was: int, n: int)
    requires n != 0 && was != n
    ensures Decode(TEnum({0}), VInt(was), Encode(TEnum({0}), VInt(n))) == Some((VInt(was), []))
  {
    RoundTrip(TEnum({0}), VInt(was), VInt(n));
    ReadWritten(TEnum({0}), VInt(was), VInt(n), []);
    assert Encode(TEnum({0}), VInt(n)) + [] == Encode(TEnum({0}), VInt(n));
  }

  /** An `Expected` that holds an error with the code OK is lost: it reads back as a value. */
  lemma ErrorWithCodeOkIsLost(was: Val, msg: string)
    ensures Decode(TExpected(TBool), was, Encode(TExpected(TBool), VErr(0, msg))) == Some((VOk(VBool(false)), []))
  {
    ReadWritten(TExpected(TBool), was, VErr(0, msg), []);
    assert Encode(TExpected(TBool), VErr(0, msg)) + [] == Encode(TExpected(TBool), VErr(0, msg));
  }
}
