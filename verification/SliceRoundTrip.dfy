/** What reading a packed slice gives back, and which slices can be packed. */
module SliceRoundTrip {
  import opened Wrappers
  import opened Bytes
  import opened GreatestCommonDivisor
  import opened SliceCodec

  // ---------------------------------------------------------------------------------------
  // Layout of a column's numbers

  lemma StepDividesEach(kind: ColumnKind, present: seq<int>, n: int)
    requires n in present
    ensures MinOf(present) <= n && Divides(StepOf(kind, present), n - MinOf(present))
  {
    var differences := DifferencesFrom(present, MinOf(present));
    var i :| 0 <= i < |present| && present[i] == n;
    if kind == Strike && GcdOf(differences) != 0 {
      GcdOfDividesEach(differences, i);
    } else {
      assert kind == Strike ==> differences[i] == 0;
      assert Product(n - MinOf(present), 1) == n - MinOf(present);
    }
  }

  /** Every code lies within the width the column chose, and base + code × step is the stored number. */
  lemma CodeGivesStoredBack(kind: ColumnKind, present: seq<int>, n: int)
    requires n in present
    ensures var layout := LayoutOf(kind, present);
            var code := Quotient(n - layout.minimum, layout.step);
            && layout.minimum + Product(code, layout.step) == n
            && 0 <= code
            && (layout.widthCode == 0 ==> code == 0)
            && (layout.widthCode == 1 ==> Fits(U8, code))
            && (layout.widthCode == 2 ==> Fits(U16, code))
  {
    StepDividesEach(kind, present, n);
    DividedExactly(StepOf(kind, present), n - MinOf(present));
    QuotientMonotone(n - MinOf(present), MaxOf(present) - MinOf(present), StepOf(kind, present));
  }

  /** A narrower width code cannot hold the column's largest code. */
  lemma WidthIsNarrowest(kind: ColumnKind, present: seq<int>)
    requires present != []
    ensures var layout := LayoutOf(kind, present);
            var largest := Quotient(MaxOf(present) - layout.minimum, layout.step);
            && (layout.widthCode >= 1 ==> largest > 0)
            && (layout.widthCode >= 2 ==> !Fits(U8, largest))
            && (layout.widthCode >= 3 ==> !Fits(U16, largest))
  {
    hide MinOf, MaxOf, StepOf, Quotient;
    QuotientMonotone(0, MaxOf(present) - MinOf(present), StepOf(kind, present));
  }

  /** No greater step divides what every strike is above the lowest one. */
  lemma StrikeStepIsGreatest(present: seq<int>, step: int)
    requires present != [] && MinOf(present) < MaxOf(present) && step > 0
    requires forall n :: n in present ==> Divides(step, n - MinOf(present))
    ensures step <= StepOf(Strike, present)
  {
    var differences := DifferencesFrom(present, MinOf(present));
    forall d | d in differences
      ensures Divides(step, d)
    {
      var i :| 0 <= i < |differences| && differences[i] == d;
      assert present[i] in present;
    }
    GcdOfIsGreatest(differences, step);
    var j :| 0 <= j < |present| && present[j] == MaxOf(present);
    assert differences[j] > 0;
    var k: int :| Product(k, step) == GcdOf(differences);
    if k <= 0 {
      NotPositive(k, step);
    }
    AtLeastOneMore(k, step);
  }

  lemma NotPositive(k: int, d: int)
    requires k <= 0 && d > 0
    ensures Product(k, d) <= 0
  {}

  // ---------------------------------------------------------------------------------------
  // Columns read back

  /** A stored number as reading its double gives it. */
  function CellAsRead(f64: DoubleCodec, cell: Cell): Cell {
    if cell.Number? && f64.encode(cell.value).Some? then CellOfDouble(f64, f64.encode(cell.value).value) else cell
  }

  /** The column keeps its numbers as doubles: some number is no whole count of its unit within 32 bits. */
  predicate StoredRaw(cells: seq<Cell>, kind: ColumnKind) {
    kind != Right && !ExactColumn(cells, kind)
  }

  function CellsAsRead(f64: DoubleCodec, cells: seq<Cell>): (read: seq<Cell>)
    ensures |read| == |cells|
    ensures forall i :: 0 <= i < |cells| ==> read[i] == CellAsRead(f64, cells[i])
  {
    seq(|cells|, i requires 0 <= i < |cells| => CellAsRead(f64, cells[i]))
  }

  function ColumnAsRead(f64: DoubleCodec, cells: seq<Cell>, kind: ColumnKind): (read: seq<Cell>)
    ensures |read| == |cells|
  {
    if StoredRaw(cells, kind) then CellsAsRead(f64, cells) else cells
  }

  /** The bytes lie in the data at the offset. */
  predicate LiesAt(data: seq<byte>, offset: nat, bytes: seq<byte>) {
    offset + |bytes| <= |data| && data[offset..offset + |bytes|] == bytes
  }

  lemma PartsLieAt(data: seq<byte>, offset: nat, first: seq<byte>, second: seq<byte>)
    requires LiesAt(data, offset, first + second)
    ensures LiesAt(data, offset, first) && LiesAt(data, offset + |first|, second)
  {
    var whole := data[offset..offset + |first + second|];
    assert whole[..|first|] == data[offset..offset + |first|];
    assert whole[|first|..] == data[offset + |first|..offset + |first| + |second|];
    assert (first + second)[..|first|] == first && (first + second)[|first|..] == second;
  }

  lemma BitmapReadAt(data: seq<byte>, offset: nat, flags: seq<bool>)
    requires LiesAt(data, offset, Bitmap(flags))
    ensures BitsInside(data, offset, |flags|)
    ensures forall i :: 0 <= i < |flags| ==> BitAt(data, offset, i) == flags[i]
  {
    var bitmap := Bitmap(flags);
    forall i | 0 <= i < |flags|
      ensures BitAt(data, offset, i) == flags[i]
    {
      BitmapReadsBack(flags, i);
      assert data[offset..offset + |bitmap|][i / 8] == data[offset + i / 8];
    }
  }

  lemma RightReadBack(data: seq<byte>, offset: nat, cells: seq<Cell>)
    requires EncodeRight(cells).Ok? && LiesAt(data, offset, EncodeRight(cells).value.bytes)
    ensures EncodeRight(cells).value.previous == None
    ensures DecodeRight(data, offset, |cells|) == Ok(DecodedColumn(cells, offset + |EncodeRight(cells).value.bytes|, None))
  {
    var flags := seq(|cells|, i requires 0 <= i < |cells| => cells[i] == Text("P"));
    BitmapReadAt(data, offset, flags);
    var decoded := DecodeRight(data, offset, |cells|).value;
    assert decoded.cells == cells;
  }

  lemma {:induction false} DoublesReadBack(f64: DoubleCodec, cells: seq<Cell>, i: nat)
    requires f64.Valid() && NumberColumn(cells) && EncodeDoubles(f64, cells).Ok? && i < |cells|
    ensures var bytes := EncodeDoubles(f64, cells).value;
            |bytes| == 8 * |cells| && CellOfDouble(f64, bytes[8 * i..8 * i + 8]) == CellAsRead(f64, cells[i])
  {
    var last := |cells| - 1;
    var before := EncodeDoubles(f64, cells[..last]).value;
    if last > 0 {
      DoublesReadBack(f64, cells[..last], if i < last then i else 0);
    }
    var bytes := EncodeDoubles(f64, cells).value;
    assert |before| == 8 * last;
    if i < last {
      assert bytes[8 * i..8 * i + 8] == before[8 * i..8 * i + 8];
    } else {
      var own := if cells[last].Null? then f64.nan else f64.encode(cells[last].value).value;
      assert bytes == before + own && |own| == 8;
      OwnPart(before, own);
    }
  }

  lemma OwnPart(before: seq<byte>, own: seq<byte>)
    ensures (before + own)[|before|..|before| + |own|] == own
  {}

  lemma SliceOfSlice(data: seq<byte>, from: nat, to: nat, first: nat, last: nat)
    requires from <= to <= |data| && first <= last <= to - from
    ensures data[from..to][first..last] == data[from + first..from + last]
  {
    var inner, outer := data[from..to][first..last], data[from + first..from + last];
    assert |inner| == |outer| && forall i :: 0 <= i < |inner| ==> inner[i] == outer[i];
  }

  lemma DoublesReadAt(f64: DoubleCodec, data: seq<byte>, start: nat, cells: seq<Cell>)
    requires f64.Valid() && NumberColumn(cells) && EncodeDoubles(f64, cells).Ok?
    requires LiesAt(data, start, EncodeDoubles(f64, cells).value)
    ensures |EncodeDoubles(f64, cells).value| == 8 * |cells|
    ensures DoublesRead(f64, data, start, |cells|) == CellsAsRead(f64, cells)
  {
    var doubles := EncodeDoubles(f64, cells).value;
    if |cells| > 0 {
      DoublesReadBack(f64, cells, 0);
    }
    forall i | 0 <= i < |cells|
      ensures CellOfDouble(f64, data[start + 8 * i..start + 8 * i + 8]) == CellAsRead(f64, cells[i])
    {
      DoublesReadBack(f64, cells, i);
      SliceOfSlice(data, start, start + |doubles|, 8 * i, 8 * i + 8);
    }
  }

  lemma RawReadBack(f64: DoubleCodec, data: seq<byte>, offset: nat, cells: seq<Cell>)
    requires f64.Valid() && NumberColumn(cells) && EncodeRaw(f64, cells, offset).Ok?
    requires LiesAt(data, offset, EncodeRaw(f64, cells, offset).value.bytes)
    ensures offset < |data| && data[offset] == 4 && EncodeRaw(f64, cells, offset).value.previous == None
    ensures DecodeRaw(f64, data, offset, |cells|)
            == Ok(DecodedColumn(CellsAsRead(f64, cells), offset + |EncodeRaw(f64, cells, offset).value.bytes|, None))
  {
    hide EncodeDoubles, DoublesRead, CellsAsRead;
    var doubles := EncodeDoubles(f64, cells).value;
    var header := [4] + Zeros(11) + Zeros(PaddedTo(offset + 12, 8) - (offset + 12));
    PartsLieAt(data, offset, header, doubles);
    assert data[offset..offset + |header|][0] == 4;
    DoublesReadAt(f64, data, offset + |header|, cells);
  }

  function HeaderBytes(layout: Layout, hasNulls: bool, overPrevious: bool): (bytes: seq<byte>)
    requires layout.widthCode <= 3 && Fits(I32, layout.minimum) && Fits(I32, layout.step)
    ensures |bytes| == 12
  {
    [Descriptor(layout.widthCode, hasNulls, overPrevious), 0, 0, 0] + PackField(I32, layout.minimum) + PackField(I32, layout.step)
  }

  function NullBytes(cells: seq<Cell>): (bytes: seq<byte>)
    ensures |bytes| == if HasNulls(cells) then BitmapBytes(|cells|) else 0
  {
    if HasNulls(cells) then Bitmap(NullsOf(cells)) else []
  }

  function ValueBytes(layout: Layout, codes: seq<int>): (bytes: seq<byte>)
    requires layout.widthCode <= 3 && LayoutFits(layout, codes)
    ensures |bytes| == if layout.widthCode == 0 then 0 else PaddedTo(|codes| * Width(CodeField(layout.widthCode)), 4)
  {
    if layout.widthCode > 0 then PaddedArray(CodeField(layout.widthCode), codes) else []
  }

  lemma CodesReadAt(data: seq<byte>, offset: nat, layout: Layout, codes: seq<int>)
    requires layout.widthCode <= 3 && LayoutFits(layout, codes) && LiesAt(data, offset, ValueBytes(layout, codes))
    requires layout.widthCode == 0 ==> forall i :: 0 <= i < |codes| ==> codes[i] == 0
    ensures DecodeCodes(data, offset, |codes|, layout.widthCode) == Ok(codes)
  {
    hide PackArray, UnpackArray, PaddedTo, Width, CodeField;
    if layout.widthCode > 0 {
      var packed := PackArray(CodeField(layout.widthCode), codes);
      PartsLieAt(data, offset, packed, Zeros(PaddedTo(|packed|, 4) - |packed|));
      ArrayRoundTrip(CodeField(layout.widthCode), codes);
    } else {
      assert seq(|codes|, _ => 0) == codes;
    }
  }

  lemma HeaderReadAt(data: seq<byte>, offset: nat, layout: Layout, hasNulls: bool, overPrevious: bool)
    requires layout.widthCode <= 3 && Fits(I32, layout.minimum) && Fits(I32, layout.step)
    requires LiesAt(data, offset, HeaderBytes(layout, hasNulls, overPrevious))
    ensures offset + 12 <= |data| && data[offset] == Descriptor(layout.widthCode, hasNulls, overPrevious)
    ensures UnpackField(I32, data[offset + 4..offset + 8]) == layout.minimum
    ensures UnpackField(I32, data[offset + 8..offset + 12]) == layout.step
  {
    hide PackField, UnpackField, Descriptor;
    var descriptor := [Descriptor(layout.widthCode, hasNulls, overPrevious), 0, 0, 0];
    PartsLieAt(data, offset, descriptor + PackField(I32, layout.minimum), PackField(I32, layout.step));
    PartsLieAt(data, offset, descriptor, PackField(I32, layout.minimum));
    assert data[offset..offset + 4][0] == descriptor[0];
    FieldRoundTrip(I32, layout.minimum);
    FieldRoundTrip(I32, layout.step);
  }

  function UnitsBefore(previous: Option<PreviousColumn>): Option<seq<int>> {
    if previous.Some? then Some(previous.value.units) else None
  }

  function ColumnLayout(cells: seq<Cell>, kind: ColumnKind, previous: Option<PreviousColumn>): (layout: Layout)
    requires PreviousFits(previous, |cells|)
    ensures layout.step > 0 && layout.widthCode <= 3
  {
    LayoutOf(kind, PresentOf(cells, StoredOf(cells, kind, previous)))
  }

  function ColumnCodes(cells: seq<Cell>, kind: ColumnKind, previous: Option<PreviousColumn>): (codes: seq<int>)
    requires PreviousFits(previous, |cells|)
    ensures |codes| == |cells|
  {
    CodesOf(cells, StoredOf(cells, kind, previous), ColumnLayout(cells, kind, previous))
  }

  lemma UnitReadsBack(cells: seq<Cell>, kind: ColumnKind, previous: Option<PreviousColumn>, i: nat)
    requires PreviousFits(previous, |cells|) && i < |cells| && !cells[i].Null?
    ensures var layout, code := ColumnLayout(cells, kind, previous), ColumnCodes(cells, kind, previous)[i];
            && layout.minimum + Product(code, layout.step) == StoredOf(cells, kind, previous)[i]
            && (layout.widthCode == 0 ==> code == 0)
  {
    hide StoredOf, LayoutOf, Product, Quotient;
    var stored := StoredOf(cells, kind, previous);
    PresentHas(cells, stored, i);
    CodeGivesStoredBack(kind, PresentOf(cells, stored), stored[i]);
  }

  lemma UnitsReadBack(cells: seq<Cell>, kind: ColumnKind, previous: Option<PreviousColumn>)
    requires PreviousFits(previous, |cells|)
    ensures var layout, codes := ColumnLayout(cells, kind, previous), ColumnCodes(cells, kind, previous);
            && UnitsRead(NullsOf(cells), layout.minimum, codes, layout.step, if OverPrevious(cells, kind, previous) then UnitsBefore(previous) else None)
               == UnitsOf(cells, kind)
            && (layout.widthCode == 0 ==> forall i :: 0 <= i < |codes| ==> codes[i] == 0)
  {
    hide ColumnLayout, LayoutOf, Product, Quotient, PresentOf;
    forall i | 0 <= i < |cells| && !cells[i].Null?
      ensures var layout, code := ColumnLayout(cells, kind, previous), ColumnCodes(cells, kind, previous)[i];
              && layout.minimum + Product(code, layout.step) == StoredOf(cells, kind, previous)[i]
              && (layout.widthCode == 0 ==> code == 0)
    {
      UnitReadsBack(cells, kind, previous, i);
    }
  }

  lemma CellsReadBack(cells: seq<Cell>, kind: ColumnKind)
    requires NumberColumn(cells) && ExactColumn(cells, kind)
    ensures CellsRead(NullsOf(cells), UnitsOf(cells, kind), kind) == cells
  {
    forall i | 0 <= i < |cells|
      ensures CellsRead(NullsOf(cells), UnitsOf(cells, kind), kind)[i] == cells[i]
    {
      assert ExactCell(cells[i], kind) && IsNumberOrNull(cells[i]);
    }
  }

  lemma NullsReadBack(data: seq<byte>, offset: nat, cells: seq<Cell>)
    requires LiesAt(data, offset, NullBytes(cells))
    ensures HasNulls(cells) ==> BitsInside(data, offset, |cells|)
    ensures NullsRead(data, offset, |cells|, HasNulls(cells)) == NullsOf(cells)
  {
    if HasNulls(cells) {
      BitmapReadAt(data, offset, NullsOf(cells));
    }
  }

  lemma DescriptorReadBack(widthCode: nat, hasNulls: bool, overPrevious: bool)
    requires widthCode <= 3
    ensures var d := Descriptor(widthCode, hasNulls, overPrevious);
            d % 8 == widthCode && (d / 8 % 2 == 1 <==> hasNulls) && (d / 16 % 2 == 1 <==> overPrevious)
  {}

  /** What the decoder reads, field by field, makes up its column. */
  lemma ScaledAssembles(data: seq<byte>, offset: nat, count: nat, kind: ColumnKind, previous: Option<seq<int>>, layout: Layout,
                        hasNulls: bool, overPrevious: bool, nulls: seq<bool>, codes: seq<int>)
    requires (previous.Some? ==> |previous.value| == count) && (overPrevious ==> previous.Some?)
    requires offset + 12 <= |data| && layout.widthCode <= 3 && data[offset] == Descriptor(layout.widthCode, hasNulls, overPrevious)
    requires UnpackField(I32, data[offset + 4..offset + 8]) == layout.minimum && UnpackField(I32, data[offset + 8..offset + 12]) == layout.step
    requires hasNulls ==> BitsInside(data, offset + 12, count)
    requires NullsRead(data, offset + 12, count, hasNulls) == nulls && |nulls| == |codes| == count
    requires DecodeCodes(data, offset + 12 + (if hasNulls then BitmapBytes(count) else 0), count, layout.widthCode) == Ok(codes)
    ensures var units := UnitsRead(nulls, layout.minimum, codes, layout.step, if overPrevious then previous else None);
            DecodeScaled(data, offset, count, kind, previous)
            == Ok(DecodedColumn(CellsRead(nulls, units, kind), offset + 12 + (if hasNulls then BitmapBytes(count) else 0)
                                + (if layout.widthCode == 0 then 0 else PaddedTo(count * Width(CodeField(layout.widthCode)), 4)), Some(units)))
  {
    hide UnpackField, NullsRead, UnitsRead, CellsRead, DecodeCodes, PaddedTo, BitsInside;
    DescriptorReadBack(layout.widthCode, hasNulls, overPrevious);
  }

  lemma ScaledParts(data: seq<byte>, offset: nat, cells: seq<Cell>, layout: Layout, codes: seq<int>, overPrevious: bool)
    requires layout.widthCode <= 3 && LayoutFits(layout, codes)
    requires LiesAt(data, offset, ScaledBytes(cells, layout, codes, overPrevious))
    ensures |ScaledBytes(cells, layout, codes, overPrevious)| == 12 + |NullBytes(cells)| + |ValueBytes(layout, codes)|
    ensures LiesAt(data, offset, HeaderBytes(layout, HasNulls(cells), overPrevious))
    ensures LiesAt(data, offset + 12, NullBytes(cells))
    ensures LiesAt(data, offset + 12 + |NullBytes(cells)|, ValueBytes(layout, codes))
  {
    hide HasNulls, Bitmap, PaddedArray, PackField, Descriptor;
    var header := HeaderBytes(layout, HasNulls(cells), overPrevious);
    assert ScaledBytes(cells, layout, codes, overPrevious) == header + NullBytes(cells) + ValueBytes(layout, codes);
    PartsLieAt(data, offset, header + NullBytes(cells), ValueBytes(layout, codes));
    PartsLieAt(data, offset, header, NullBytes(cells));
  }

  lemma ScaledBytesReadBack(data: seq<byte>, offset: nat, cells: seq<Cell>, kind: ColumnKind, previous: Option<PreviousColumn>, layout: Layout, codes: seq<int>, over: bool)
    requires PreviousFits(previous, |cells|) && NumberColumn(cells) && ExactColumn(cells, kind)
    requires layout == ColumnLayout(cells, kind, previous) && codes == ColumnCodes(cells, kind, previous) && over == OverPrevious(cells, kind, previous)
    requires LayoutFits(layout, codes) && LiesAt(data, offset, ScaledBytes(cells, layout, codes, over))
    ensures offset < |data| && data[offset] % 8 < 4
    ensures DecodeScaled(data, offset, |cells|, kind, UnitsBefore(previous))
            == Ok(DecodedColumn(cells, offset + |ScaledBytes(cells, layout, codes, over)|, Some(UnitsOf(cells, kind))))
  {
    hide ColumnLayout, ColumnCodes, UnitsOf, NullsOf, HasNulls, OverPrevious, UnpackField, NullsRead, UnitsRead, CellsRead, DecodeCodes, Descriptor, BitsInside, ExactColumn, NumberColumn, DecodeScaled, ScaledBytes, PaddedTo, LiesAt, HeaderBytes, NullBytes, ValueBytes;
    ScaledParts(data, offset, cells, layout, codes, over);
    HeaderReadAt(data, offset, layout, HasNulls(cells), over);
    DescriptorReadBack(layout.widthCode, HasNulls(cells), over);
    NullsReadBack(data, offset + 12, cells);
    UnitsReadBack(cells, kind, previous);
    CodesReadAt(data, offset + 12 + |NullBytes(cells)|, layout, codes);
    CellsReadBack(cells, kind);
    if over {
      OverPreviousHasUnits(cells, kind, previous);
    }
    ScaledAssembles(data, offset, |cells|, kind, UnitsBefore(previous), layout, HasNulls(cells), over, NullsOf(cells), codes);
  }

  lemma ScaledReadBack(data: seq<byte>, offset: nat, cells: seq<Cell>, kind: ColumnKind, previous: Option<PreviousColumn>)
    requires PreviousFits(previous, |cells|) && NumberColumn(cells) && ExactColumn(cells, kind)
    requires EncodeScaled(cells, kind, previous).Ok?
    requires LiesAt(data, offset, EncodeScaled(cells, kind, previous).value.bytes)
    ensures offset < |data| && data[offset] % 8 < 4
    ensures EncodeScaled(cells, kind, previous).value.previous == Some(PreviousColumn(cells, UnitsOf(cells, kind)))
    ensures DecodeScaled(data, offset, |cells|, kind, UnitsBefore(previous))
            == Ok(DecodedColumn(cells, offset + |EncodeScaled(cells, kind, previous).value.bytes|, Some(UnitsOf(cells, kind))))
  {
    hide LayoutOf, CodesOf, StoredOf, PresentOf, UnitsOf, OverPrevious, ExactColumn, NumberColumn, DecodeScaled, ScaledBytes, LayoutFits;
    ScaledBytesReadBack(data, offset, cells, kind, previous, ColumnLayout(cells, kind, previous), ColumnCodes(cells, kind, previous), OverPrevious(cells, kind, previous));
  }

  lemma OverPreviousHasUnits(cells: seq<Cell>, kind: ColumnKind, previous: Option<PreviousColumn>)
    requires PreviousFits(previous, |cells|) && OverPrevious(cells, kind, previous)
    ensures UnitsBefore(previous).Some?
  {}

  /** Decoding a column where encoding put it gives its cells and units, and ends where the encoder's size does. */
  lemma ColumnReadBack(f64: DoubleCodec, data: seq<byte>, offset: nat, cells: seq<Cell>, kind: ColumnKind, previous: Option<PreviousColumn>)
    requires f64.Valid() && PreviousFits(previous, |cells|)
    requires EncodeColumn(f64, cells, kind, offset, previous).Ok?
    requires LiesAt(data, offset, EncodeColumn(f64, cells, kind, offset, previous).value.bytes)
    ensures var encoded := EncodeColumn(f64, cells, kind, offset, previous).value;
            DecodeColumn(f64, data, offset, |cells|, kind, UnitsBefore(previous))
            == Ok(DecodedColumn(ColumnAsRead(f64, cells, kind), offset + |encoded.bytes|, UnitsBefore(encoded.previous)))
  {
    hide EncodeRight, EncodeRaw, EncodeScaled, DecodeRight, DecodeRaw, DecodeScaled, CellsAsRead, UnitsOf, LiesAt, ExactColumn, NumberColumn;
    if kind == Right {
      RightReadBack(data, offset, cells);
    } else if !ExactColumn(cells, kind) {
      RawReadBack(f64, data, offset, cells);
    } else {
      ScaledReadBack(data, offset, cells, kind, previous);
    }
  }

  lemma {:induction false} ColumnsReadBack(f64: DoubleCodec, data: seq<byte>, rows: seq<Row>, kinds: seq<ColumnKind>, column: nat, size: nat, previous: Option<PreviousColumn>)
    requires f64.Valid() && Rectangular(rows, |kinds|) && column <= |kinds| && PreviousFits(previous, |rows|)
    requires EncodeColumns(f64, rows, kinds, column, size, previous).Ok?
    requires LiesAt(data, size, EncodeColumns(f64, rows, kinds, column, size, previous).value)
    ensures DecodeColumns(f64, data, |rows|, kinds, column, size, UnitsBefore(previous)).Ok?
    ensures var read := DecodeColumns(f64, data, |rows|, kinds, column, size, UnitsBefore(previous)).value;
            forall c :: column <= c < |kinds| ==> read[c - column] == ColumnAsRead(f64, ColumnOf(rows, |kinds|, c), kinds[c])
    decreases |kinds| - column
  {
    hide EncodeColumn, DecodeColumn, ColumnAsRead, ColumnOf;
    if column < |kinds| {
      var encoded := EncodeColumn(f64, ColumnOf(rows, |kinds|, column), kinds[column], size, previous).value;
      var rest := EncodeColumns(f64, rows, kinds, column + 1, size + |encoded.bytes|, encoded.previous).value;
      PartsLieAt(data, size, encoded.bytes, rest);
      ColumnReadBack(f64, data, size, ColumnOf(rows, |kinds|, column), kinds[column], previous);
      ColumnsReadBack(f64, data, rows, kinds, column + 1, size + |encoded.bytes|, encoded.previous);
    }
  }

  /** The rows a packed slice reads back as: its own, but for numbers kept as doubles that are none. */
  function RowsAsRead(f64: DoubleCodec, rows: seq<Row>, kinds: seq<ColumnKind>): (read: seq<Row>)
    requires Rectangular(rows, |kinds|)
    ensures |read| == |rows| && Rectangular(read, |kinds|)
  {
    seq(|rows|, i requires 0 <= i < |rows| =>
      seq(|kinds|, c requires 0 <= c < |kinds| => ColumnAsRead(f64, ColumnOf(rows, |kinds|, c), kinds[c])[i]))
  }

  lemma UnpackOfPack(f64: DoubleCodec, rows: seq<Row>, kinds: seq<ColumnKind>)
    requires f64.Valid() && Rectangular(rows, |kinds|) && PackedSlice(f64, rows, kinds).Ok?
    ensures UnpackedSlice(f64, PackedSlice(f64, rows, kinds).value, kinds) == Ok(RowsAsRead(f64, rows, kinds))
  {
    hide EncodeColumns, DecodeColumns, ColumnAsRead;
    var data := PackedSlice(f64, rows, kinds).value;
    var columns := EncodeColumns(f64, rows, kinds, 0, 4, None).value;
    assert LiesAt(data, 0, PackField(U32, |rows|) + columns);
    PartsLieAt(data, 0, PackField(U32, |rows|), columns);
    FieldRoundTrip(U32, |rows|);
    assert data[..4] == PackField(U32, |rows|);
    ColumnsReadBack(f64, data, rows, kinds, 0, 4, None);
    var read := DecodeColumns(f64, data, |rows|, kinds, 0, 4, None).value;
    forall i | 0 <= i < |rows|
      ensures Transposed(read, |rows|)[i] == RowsAsRead(f64, rows, kinds)[i]
    {}
    assert Transposed(read, |rows|) == RowsAsRead(f64, rows, kinds);
  }

  /** Every number a column keeps as a double is one. */
  predicate RawNumbersAreDoubles(f64: DoubleCodec, rows: seq<Row>, kinds: seq<ColumnKind>)
    requires Rectangular(rows, |kinds|)
  {
    forall c :: 0 <= c < |kinds| && StoredRaw(ColumnOf(rows, |kinds|, c), kinds[c]) ==>
      forall i :: 0 <= i < |rows| && rows[i][c].Number? ==> f64.Holds(rows[i][c].value)
  }

  lemma RawColumnEncodes(f64: DoubleCodec, rows: seq<Row>, kinds: seq<ColumnKind>, column: nat, size: nat, previous: Option<PreviousColumn>, c: nat)
    requires Rectangular(rows, |kinds|) && column <= c < |kinds| && PreviousFits(previous, |rows|)
    requires EncodeColumns(f64, rows, kinds, column, size, previous).Ok?
    requires StoredRaw(ColumnOf(rows, |kinds|, c), kinds[c])
    ensures NumberColumn(ColumnOf(rows, |kinds|, c)) && EncodeDoubles(f64, ColumnOf(rows, |kinds|, c)).Ok?
    decreases |kinds| - column
  {
    hide EncodeScaled;
    if column < c {
      var encoded := EncodeColumn(f64, ColumnOf(rows, |kinds|, column), kinds[column], size, previous).value;
      RawColumnEncodes(f64, rows, kinds, column + 1, size + |encoded.bytes|, encoded.previous, c);
    }
  }

  lemma {:induction false} EncodedNumbers(f64: DoubleCodec, cells: seq<Cell>, i: nat)
    requires NumberColumn(cells) && EncodeDoubles(f64, cells).Ok? && i < |cells| && cells[i].Number?
    ensures f64.encode(cells[i].value).Some?
  {
    var last := |cells| - 1;
    if i < last {
      EncodedNumbers(f64, cells[..last], i);
    }
  }

  /** unpack_slice undoes pack_slice, exactly when every number a column had to keep as a double is one. */
  lemma RoundTrip(f64: DoubleCodec, rows: seq<Row>, kinds: seq<ColumnKind>)
    requires f64.Valid() && Rectangular(rows, |kinds|) && PackedSlice(f64, rows, kinds).Ok?
    ensures UnpackedSlice(f64, PackedSlice(f64, rows, kinds).value, kinds) == Ok(rows) <==> RawNumbersAreDoubles(f64, rows, kinds)
  {
    UnpackOfPack(f64, rows, kinds);
    var read := RowsAsRead(f64, rows, kinds);
    if RawNumbersAreDoubles(f64, rows, kinds) {
      forall i, c | 0 <= i < |rows| && 0 <= c < |kinds|
        ensures read[i][c] == rows[i][c]
      {
        assert ColumnOf(rows, |kinds|, c)[i] == rows[i][c];
      }
      assert forall i :: 0 <= i < |rows| ==> read[i] == rows[i];
      assert read == rows;
    }
    if read == rows {
      forall c, i | 0 <= c < |kinds| && StoredRaw(ColumnOf(rows, |kinds|, c), kinds[c]) && 0 <= i < |rows| && rows[i][c].Number?
        ensures f64.Holds(rows[i][c].value)
      {
        RawColumnEncodes(f64, rows, kinds, 0, 4, None, c);
        EncodedNumbers(f64, ColumnOf(rows, |kinds|, c), i);
        assert read[i][c] == CellAsRead(f64, rows[i][c]);
      }
    }
  }
}
