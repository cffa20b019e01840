/** pack_slice and unpack_slice as they run: loops over the columns that move a size and an offset along. */
module SlicePacker {
  import opened Wrappers
  import opened Bytes
  import opened GreatestCommonDivisor
  import opened SliceCodec

  /** The bit of one row set in a bitmap when its flag is. */
  method SetFlag(bitmap: array<byte>, ghost flags: seq<bool>, index: nat, flag: bool)
    requires index < |flags| && flag == flags[index] && bitmap[..] == BitmapUpTo(flags, index)
    modifies bitmap
    ensures bitmap[..] == BitmapUpTo(flags, index + 1)
  {
    hide ByteWithBit, BitmapBytes;
    if flag {
      bitmap[index / 8] := ByteWithBit(bitmap[index / 8], index % 8);
    }
  }

  /** The right column's bitmap, a bit set for each Put. */
  method PackRights(cells: seq<Cell>) returns (r: Result<EncodedColumn, PackError>)
    ensures r == EncodeRight(cells)
  {
    hide ByteWithBit, BitmapBytes;
    ghost var flags := seq(|cells|, i requires 0 <= i < |cells| => cells[i] == Text("P"));
    var bitmap := new byte[BitmapBytes(|cells|)](_ => 0);
    assert bitmap[..] == Zeros(bitmap.Length);
    for index := 0 to |cells|
      invariant bitmap[..] == BitmapUpTo(flags, index)
      invariant forall i :: 0 <= i < index ==> cells[i] == Text("C") || cells[i] == Text("P")
    {
      if cells[index] != Text("P") && cells[index] != Text("C") {
        return Err(UnknownRight);
      }
      SetFlag(bitmap, flags, index, cells[index] == Text("P"));
    }
    return Ok(EncodedColumn(bitmap[..], None));
  }

  lemma NoBits(flags: seq<bool>, bitmap: seq<byte>)
    requires |bitmap| == BitmapBytes(|flags|) && forall i :: 0 <= i < |bitmap| ==> bitmap[i] == 0
    ensures bitmap == BitmapUpTo(flags, 0)
  {
    hide BitmapBytes;
    assert bitmap == Zeros(|bitmap|);
  }

  /** One pass over a column of numbers: its units, its null bitmap, and whether every number is exact in its unit. */
  method ScaleColumn(cells: seq<Cell>, kind: ColumnKind) returns (numbers: bool, units: seq<int>, nulls: seq<byte>, hasNulls: bool, exact: bool)
    ensures numbers == NumberColumn(cells)
    ensures numbers ==> units == UnitsOf(cells, kind) && nulls == Bitmap(NullsOf(cells))
    ensures numbers ==> hasNulls == HasNulls(cells) && exact == ExactColumn(cells, kind)
  {
    hide ScaledValue, ExactValue, ByteWithBit, BitmapBytes, BitmapUpTo;
    units := seq(|cells|, _ => 0);
    var bitmap := new byte[BitmapBytes(|cells|)](_ => 0);
    assert bitmap[..] == BitmapUpTo(NullsOf(cells), 0) by {
      NoBits(NullsOf(cells), bitmap[..]);
    }
    hasNulls, exact := false, true;
    for index := 0 to |cells|
      invariant forall i :: 0 <= i < index ==> IsNumberOrNull(cells[i])
      invariant |units| == |cells| && forall i :: 0 <= i < |cells| ==> units[i] == if i < index then UnitsOfCell(cells[i], kind) else 0
      invariant bitmap[..] == BitmapUpTo(NullsOf(cells), index)
      invariant hasNulls <==> exists i :: 0 <= i < index && cells[i].Null?
      invariant exact <==> forall i :: 0 <= i < index ==> ExactCell(cells[i], kind)
    {
      SetFlag(bitmap, NullsOf(cells), index, cells[index].Null?);
      match cells[index]
      case Null =>
        hasNulls := true;
      case Number(value) =>
        var scaled := ScaledValue(value, kind);
        if !ExactValue(value, scaled, kind) {
          exact := false;
        }
        units := units[index := scaled];
      case _ =>
        return false, [], [], false, false;
    }
    numbers, nulls := true, bitmap[..];
  }

  /** The strikes' step: math.gcd folded over what each is above the lowest. */
  method StrikeStep(present: seq<int>, minimum: int) returns (step: nat)
    requires forall n :: n in present ==> minimum <= n
    ensures step == if GcdOf(DifferencesFrom(present, minimum)) == 0 then 1 else GcdOf(DifferencesFrom(present, minimum))
  {
    ghost var differences := DifferencesFrom(present, minimum);
    step := 0;
    for index := 0 to |present|
      invariant step == GcdOf(differences[..index])
    {
      step := Gcd(step, present[index] - minimum);
      assert differences[..index + 1][..index] == differences[..index];
    }
    assert differences[..|present|] == differences;
    if step == 0 {
      step := 1;
    }
  }

  /** Base, step and width of the stored numbers. */
  method ChooseLayout(kind: ColumnKind, present: seq<int>) returns (layout: Layout)
    ensures layout == LayoutOf(kind, present)
  {
    hide Quotient, WidthCode;
    var minimum := if present != [] then MinOf(present) else 0;
    var maximum := if present != [] then MaxOf(present) else 0;
    var step := 1;
    if kind == Strike {
      step := StrikeStep(present, minimum);
    }
    if present != [] {
      assert minimum <= maximum;
      QuotientMonotone(0, maximum - minimum, step);
    } else {
      assert DifferencesFrom(present, minimum) == [];
      EmptyQuotient(step);
    }
    return Layout(minimum, step, WidthCode(Quotient(maximum - minimum, step)));
  }

  lemma EmptyQuotient(step: nat)
    requires step > 0
    ensures Quotient(0, step) == 0 && WidthCode(0) == 0
  {}

  /** A column of numbers in whole units: base, step and codes in the narrowest width. */
  method PackUnits(cells: seq<Cell>, kind: ColumnKind, units: seq<int>, nulls: seq<byte>, hasNulls: bool, previous: Option<PreviousColumn>)
    returns (r: Result<EncodedColumn, PackError>)
    requires PreviousFits(previous, |cells|)
    requires units == UnitsOf(cells, kind) && nulls == Bitmap(NullsOf(cells)) && hasNulls == HasNulls(cells)
    ensures r == EncodeScaled(cells, kind, previous)
  {
    hide LayoutOf, PresentOf, CodesOf, UnitsOf, Bitmap, NullsOf, HasNulls, Descriptor, PackField, PaddedArray, CodeField, OverPrevious;
    var stored, overPrevious := units, false;
    if OverPrevious(cells, kind, previous) {
      stored, overPrevious := DifferencesOver(cells, units, kind, previous), true;
    }
    var layout := ChooseLayout(kind, PresentOf(cells, stored));
    if !Fits(I32, layout.minimum) || !Fits(I32, layout.step) {
      return Err(FieldOverflow);
    }
    var bytes := [Descriptor(layout.widthCode, hasNulls, overPrevious), 0, 0, 0] + PackField(I32, layout.minimum) + PackField(I32, layout.step);
    bytes := bytes + if hasNulls then nulls else [];
    var codes := CodesOf(cells, stored, layout);
    var values: seq<byte> := [];
    if layout.widthCode > 0 {
      if exists n :: n in codes && !Fits(CodeField(layout.widthCode), n) {
        return Err(FieldOverflow);
      }
      values := PaddedArray(CodeField(layout.widthCode), codes);
    }
    return Ok(EncodedColumn(bytes + values, Some(PreviousColumn(cells, units))));
  }

  function DifferencesOver(cells: seq<Cell>, units: seq<int>, kind: ColumnKind, previous: Option<PreviousColumn>): (stored: seq<int>)
    requires PreviousFits(previous, |cells|) && OverPrevious(cells, kind, previous) && units == UnitsOf(cells, kind)
    ensures stored == StoredOf(cells, kind, previous)
  {
    seq(|cells|, i requires 0 <= i < |cells| => if cells[i].Null? then 0 else units[i] - previous.value.units[i])
  }

  function Joined(parts: seq<seq<byte>>): seq<byte> {
    if parts == [] then [] else Joined(parts[..|parts| - 1]) + parts[|parts| - 1]
  }

  lemma OnePart(part: seq<byte>)
    ensures Joined([part]) == part + []
  {
    JoinedAppends([], part);
    assert [] + [part] == [part];
  }

  lemma JoinedAppends(parts: seq<seq<byte>>, part: seq<byte>)
    ensures Joined(parts + [part]) == Joined(parts) + part
  {
    assert (parts + [part])[..|parts|] == parts;
  }

  lemma Regroup(first: seq<byte>, second: seq<byte>, third: seq<byte>)
    ensures first + second + third == first + (second + third)
  {}

  method PackColumn(f64: DoubleCodec, cells: seq<Cell>, kind: ColumnKind, size: nat, previous: Option<PreviousColumn>)
    returns (r: Result<EncodedColumn, PackError>)
    requires PreviousFits(previous, |cells|)
    ensures r == EncodeColumn(f64, cells, kind, size, previous)
  {
    if kind == Right {
      r := PackRights(cells);
      return;
    }
    var numbers, units, nulls, hasNulls, exact := ScaleColumn(cells, kind);
    if !numbers {
      return Err(NotANumber);
    }
    if !exact {
      return EncodeRaw(f64, cells, size);
    }
    r := PackUnits(cells, kind, units, nulls, hasNulls, previous);
  }

  /** The columns before `column` are written: the whole is their bytes and what the later ones give. */
  ghost predicate WrittenSoFar(f64: DoubleCodec, rows: seq<Row>, kinds: seq<ColumnKind>, column: nat, size: nat, previous: Option<PreviousColumn>, columns: seq<byte>)
    requires Rectangular(rows, |kinds|) && column <= |kinds| && PreviousFits(previous, |rows|)
  {
    EncodeColumns(f64, rows, kinds, 0, 4, None) == match EncodeColumns(f64, rows, kinds, column, size, previous)
                                                   case Ok(rest) => Ok(columns + rest)
                                                   case Err(e) => Err(e)
  }

  lemma WrittenStarts(f64: DoubleCodec, rows: seq<Row>, kinds: seq<ColumnKind>)
    requires Rectangular(rows, |kinds|)
    ensures WrittenSoFar(f64, rows, kinds, 0, 4, None, [])
  {
    var whole := EncodeColumns(f64, rows, kinds, 0, 4, None);
    assert whole.Ok? ==> [] + whole.value == whole.value;
  }

  lemma WrittenStep(f64: DoubleCodec, rows: seq<Row>, kinds: seq<ColumnKind>, column: nat, size: nat, previous: Option<PreviousColumn>, columns: seq<byte>)
    requires Rectangular(rows, |kinds|) && column < |kinds| && PreviousFits(previous, |rows|)
    requires WrittenSoFar(f64, rows, kinds, column, size, previous, columns)
    ensures match EncodeColumn(f64, ColumnOf(rows, |kinds|, column), kinds[column], size, previous)
            case Ok(encoded) => WrittenSoFar(f64, rows, kinds, column + 1, size + |encoded.bytes|, encoded.previous, columns + encoded.bytes)
            case Err(e) => EncodeColumns(f64, rows, kinds, 0, 4, None) == Err(e)
  {
    hide EncodeColumn;
    var own := EncodeColumn(f64, ColumnOf(rows, |kinds|, column), kinds[column], size, previous);
    if own.Ok? {
      var after := EncodeColumns(f64, rows, kinds, column + 1, size + |own.value.bytes|, own.value.previous);
      if after.Ok? {
        Regroup(columns, own.value.bytes, after.value);
      }
    }
  }

  lemma WrittenEnds(f64: DoubleCodec, rows: seq<Row>, kinds: seq<ColumnKind>, size: nat, previous: Option<PreviousColumn>, columns: seq<byte>)
    requires Rectangular(rows, |kinds|) && PreviousFits(previous, |rows|)
    requires WrittenSoFar(f64, rows, kinds, |kinds|, size, previous, columns)
    ensures EncodeColumns(f64, rows, kinds, 0, 4, None) == Ok(columns)
  {
    assert columns + [] == columns;
  }

  method PackSlice(f64: DoubleCodec, rows: seq<Row>, kinds: seq<ColumnKind>) returns (r: Result<seq<byte>, PackError>)
    requires Rectangular(rows, |kinds|)
    ensures r == PackedSlice(f64, rows, kinds)
  {
    if !Fits(U32, |rows|) {
      return Err(FieldOverflow);
    }
    hide EncodeColumn, PackField, Joined, WrittenSoFar, EncodeColumns;
    var header := PackField(U32, |rows|);
    var parts := [header];
    var size := 4;
    var previous: Option<PreviousColumn> := None;
    ghost var columns: seq<byte> := [];
    OnePart(header);
    WrittenStarts(f64, rows, kinds);
    for column := 0 to |kinds|
      invariant PreviousFits(previous, |rows|) && size == |header + columns| && Joined(parts) == header + columns
      invariant WrittenSoFar(f64, rows, kinds, column, size, previous, columns)
    {
      WrittenStep(f64, rows, kinds, column, size, previous, columns);
      var encoded :- PackColumn(f64, ColumnOf(rows, |kinds|, column), kinds[column], size, previous);
      Regroup(header, columns, encoded.bytes);
      JoinedAppends(parts, encoded.bytes);
      columns := columns + encoded.bytes;
      parts := parts + [encoded.bytes];
      size := size + |encoded.bytes|;
      previous := encoded.previous;
    }
    WrittenEnds(f64, rows, kinds, size, previous, columns);
    return Ok(Joined(parts));
  }

  // ---------------------------------------------------------------------------------------
  // Reading

  /** The values of a column kept in units, contract by contract. */
  method ReadUnits(data: seq<byte>, nullsAt: nat, hasNulls: bool, base: int, codes: seq<int>, step: int, previous: Option<seq<int>>, kind: ColumnKind)
    returns (units: seq<int>, cells: seq<Cell>)
    requires hasNulls ==> BitsInside(data, nullsAt, |codes|)
    requires previous.Some? ==> |previous.value| == |codes|
    ensures units == UnitsRead(NullsRead(data, nullsAt, |codes|, hasNulls), base, codes, step, previous)
    ensures cells == CellsRead(NullsRead(data, nullsAt, |codes|, hasNulls), units, kind)
  {
    ghost var nulls := NullsRead(data, nullsAt, |codes|, hasNulls);
    units := seq(|codes|, _ => 0);
    cells := [];
    for index := 0 to |codes|
      invariant |cells| == index && |units| == |codes|
      invariant forall i :: 0 <= i < |codes| ==>
        units[i] == if i < index then UnitsRead(nulls, base, codes, step, previous)[i] else 0
      invariant forall i :: 0 <= i < index ==> cells[i] == if nulls[i] then Null else CellOfUnits(units[i], kind)
    {
      if hasNulls && BitAt(data, nullsAt, index) {
        cells := cells + [Null];
      } else {
        var value := base + Product(codes[index], step) + if previous.Some? then previous.value[index] else 0;
        units := units[index := value];
        cells := cells + [CellOfUnits(value, kind)];
      }
    }
  }

  method ReadScaled(data: seq<byte>, start: nat, count: nat, kind: ColumnKind, previous: Option<seq<int>>) returns (r: Result<DecodedColumn, UnpackError>)
    requires previous.Some? ==> |previous.value| == count
    ensures r == DecodeScaled(data, start, count, kind, previous)
  {
    hide NullsRead, UnitsRead, CellsRead, DecodeCodes, UnpackField, PaddedTo, BitsInside;
    var offset := start;
    if offset + 12 > |data| {
      return Err(Malformed);
    }
    var descriptor := data[offset];
    var widthCode := descriptor % 8;
    var base, step := UnpackField(I32, data[offset + 4..offset + 8]), UnpackField(I32, data[offset + 8..offset + 12]);
    offset := offset + 12;
    var hasNulls, nullsAt := descriptor / 8 % 2 == 1, offset;
    if hasNulls {
      offset := offset + BitmapBytes(count);
    }
    if widthCode > 3 || (hasNulls && !BitsInside(data, nullsAt, count)) {
      return Err(Malformed);
    }
    var codes :- DecodeCodes(data, offset, count, widthCode);
    if widthCode > 0 {
      offset := offset + PaddedTo(count * Width(CodeField(widthCode)), 4);
    }
    var overPrevious := descriptor / 16 % 2 == 1;
    if overPrevious && previous.None? && (exists i :: 0 <= i < count && !NullsRead(data, nullsAt, count, hasNulls)[i]) {
      return Err(Malformed);
    }
    var units, cells := ReadUnits(data, nullsAt, hasNulls, base, codes, step, if overPrevious then previous else None, kind);
    return Ok(DecodedColumn(cells, offset, Some(units)));
  }

  method ReadColumn(f64: DoubleCodec, data: seq<byte>, offset: nat, count: nat, kind: ColumnKind, previous: Option<seq<int>>)
    returns (r: Result<DecodedColumn, UnpackError>)
    requires previous.Some? ==> |previous.value| == count
    ensures r == DecodeColumn(f64, data, offset, count, kind, previous)
  {
    if kind == Right {
      return DecodeRight(data, offset, count);
    }
    if offset >= |data| {
      return Err(Malformed);
    }
    if data[offset] % 8 == 4 {
      return DecodeRaw(f64, data, offset, count);
    }
    r := ReadScaled(data, offset, count, kind, previous);
  }

  method UnpackSlice(f64: DoubleCodec, data: seq<byte>, kinds: seq<ColumnKind>) returns (r: Result<seq<Row>, UnpackError>)
    ensures r == UnpackedSlice(f64, data, kinds)
  {
    if |data| < 4 {
      return Err(Malformed);
    }
    var count := UnpackField(U32, data[..4]);
    var offset := 4;
    var columns: seq<seq<Cell>> := [];
    var previous: Option<seq<int>> := None;
    hide DecodeColumn, UnpackField;
    ghost var whole := DecodeColumns(f64, data, count, kinds, 0, 4, None);
    assert whole.Ok? ==> columns + whole.value == whole.value;
    for column := 0 to |kinds|
      invariant |columns| == column && forall c :: 0 <= c < column ==> |columns[c]| == count
      invariant previous.Some? ==> |previous.value| == count
      invariant whole == match DecodeColumns(f64, data, count, kinds, column, offset, previous)
                                                                     case Ok(rest) => Ok(columns + rest)
                                                                     case Err(e) => Err(e)
    {
      var decoded :- ReadColumn(f64, data, offset, count, kinds[column], previous);
      ghost var after := DecodeColumns(f64, data, count, kinds, column + 1, decoded.offset, decoded.units);
      assert after.Ok? ==> columns + ([decoded.cells] + after.value) == columns + [decoded.cells] + after.value;
      columns := columns + [decoded.cells];
      offset := decoded.offset;
      previous := decoded.units;
    }
    assert columns + [] == columns;
    return Ok(Transposed(columns, count));
  }
}
