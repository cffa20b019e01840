/**
 The schema 4 slice: a day's contracts of one look and expiry packed as columns
 (scripts/backtest/symbol_file_slices.py). The functions say which bytes a slice holds and
 how they are read back; SlicePacker has the loops that write and read them.
 */
module SliceCodec {
  import opened Wrappers
  import opened Bytes
  import opened GreatestCommonDivisor

  datatype ColumnKind = Strike | Right | Cents | CentsOverPrevious | Count

  /** A value of a contract's row; Unusable stands for a bool, a NaN and an infinity. */
  datatype Cell = Null | Number(value: real) | Text(text: string) | Unusable

  type Row = seq<Cell>

  /** What stops pack_slice: a right that is neither C nor P, a value that is no number, struct.error or OverflowError. */
  datatype PackError = UnknownRight | NotANumber | FieldOverflow

  datatype UnpackError = Malformed

  /**
   struct's "<d" field, kept abstract: `encode` rounds a number to a double's 8 bytes (None
   when it is too large for one), `decode` reads 8 bytes (None for a NaN), and `nan` is the NaN
   a missing value is stored as.
   */
  datatype DoubleCodec = DoubleCodec(encode: real -> Option<seq<byte>>, decode: seq<byte> -> Option<real>, nan: seq<byte>) {
    ghost predicate Valid() {
      && |nan| == 8
      && decode(nan) == None
      && forall v :: encode(v).Some? ==> |encode(v).value| == 8
    }

    /** The number is a double: reading what was written gives it back. */
    predicate Holds(v: real) {
      encode(v).Some? && decode(encode(v).value) == Some(v)
    }
  }

  function Unit(kind: ColumnKind): (unit: nat)
    ensures unit > 0
  {
    match kind
    case Strike => 1000
    case Cents => 100
    case CentsOverPrevious => 100
    case Count => 1
    case Right => 1
  }

  /** Math.round: halves up. */
  function JavascriptRound(value: real): int {
    (value + 0.5).Floor
  }

  // ---------------------------------------------------------------------------------------
  // A column's numbers

  predicate IsNumberOrNull(cell: Cell) {
    cell.Null? || cell.Number?
  }

  predicate NumberColumn(cells: seq<Cell>) {
    forall i :: 0 <= i < |cells| ==> IsNumberOrNull(cells[i])
  }

  predicate RightColumn(cells: seq<Cell>) {
    forall i :: 0 <= i < |cells| ==> cells[i] == Text("C") || cells[i] == Text("P")
  }

  /** The number in whole units, halves rounded up. */
  function ScaledValue(value: real, kind: ColumnKind): int {
    JavascriptRound(value * Unit(kind) as real)
  }

  /** scaled / unit == value, and scaled within 32 bits. */
  predicate ExactValue(value: real, scaled: int, kind: ColumnKind) {
    scaled as real / Unit(kind) as real == value && INT32_MIN < scaled <= INT32_MAX
  }

  function UnitsOfCell(cell: Cell, kind: ColumnKind): int {
    if cell.Number? then ScaledValue(cell.value, kind) else 0
  }

  /** The number is a whole count of its unit, within 32 bits. */
  predicate ExactCell(cell: Cell, kind: ColumnKind) {
    cell.Number? ==> ExactValue(cell.value, UnitsOfCell(cell, kind), kind)
  }

  predicate ExactColumn(cells: seq<Cell>, kind: ColumnKind) {
    forall i :: 0 <= i < |cells| ==> ExactCell(cells[i], kind)
  }

  function UnitsOf(cells: seq<Cell>, kind: ColumnKind): (units: seq<int>)
    ensures |units| == |cells|
    ensures forall i :: 0 <= i < |cells| ==> units[i] == UnitsOfCell(cells[i], kind)
  {
    seq(|cells|, i requires 0 <= i < |cells| => UnitsOfCell(cells[i], kind))
  }

  function NullsOf(cells: seq<Cell>): (nulls: seq<bool>)
    ensures |nulls| == |cells|
    ensures forall i :: 0 <= i < |cells| ==> nulls[i] == cells[i].Null?
  {
    seq(|cells|, i requires 0 <= i < |cells| => cells[i].Null?)
  }

  predicate HasNulls(cells: seq<Cell>) {
    exists i :: 0 <= i < |cells| && cells[i].Null?
  }

  /** The column before, when its numbers were stored in units: what a difference is taken from. */
  datatype PreviousColumn = PreviousColumn(cells: seq<Cell>, units: seq<int>)

  predicate PreviousFits(previous: Option<PreviousColumn>, count: nat) {
    previous.Some? ==> |previous.value.cells| == |previous.value.units| == count
  }

  /** Stored as the difference from the column before: it must hold a number wherever this one does. */
  predicate OverPrevious(cells: seq<Cell>, kind: ColumnKind, previous: Option<PreviousColumn>)
    requires PreviousFits(previous, |cells|)
  {
    && kind == CentsOverPrevious
    && previous.Some?
    && forall i :: 0 <= i < |cells| ==> cells[i].Null? || !previous.value.cells[i].Null?
  }

  function StoredOf(cells: seq<Cell>, kind: ColumnKind, previous: Option<PreviousColumn>): (stored: seq<int>)
    requires PreviousFits(previous, |cells|)
    ensures |stored| == |cells|
  {
    var units := UnitsOf(cells, kind);
    if OverPrevious(cells, kind, previous) then
      seq(|cells|, i requires 0 <= i < |cells| => if cells[i].Null? then 0 else units[i] - previous.value.units[i])
    else
      units
  }

  /** The stored numbers of the contracts that have one, in order. */
  function PresentOf(cells: seq<Cell>, stored: seq<int>): (present: seq<int>)
    requires |cells| == |stored|
  {
    if cells == [] then [] else
    var last := |cells| - 1;
    var before := PresentOf(cells[..last], stored[..last]);
    if cells[last].Null? then before else before + [stored[last]]
  }

  lemma {:induction false} PresentHas(cells: seq<Cell>, stored: seq<int>, i: nat)
    requires |cells| == |stored| && i < |cells| && !cells[i].Null?
    ensures stored[i] in PresentOf(cells, stored)
  {
    var last := |cells| - 1;
    if i < last {
      PresentHas(cells[..last], stored[..last], i);
      assert stored[..last][i] == stored[i];
    }
  }

  lemma {:induction false} PresentIndex(cells: seq<Cell>, stored: seq<int>, n: int) returns (i: nat)
    requires |cells| == |stored| && n in PresentOf(cells, stored)
    ensures i < |cells| && !cells[i].Null? && stored[i] == n
  {
    i := |cells| - 1;
    if cells[i].Null? || stored[i] != n {
      i := PresentIndex(cells[..i], stored[..i], n);
    }
  }

  function MinOf(ns: seq<int>): (m: int)
    requires ns != []
    ensures m in ns && forall n :: n in ns ==> m <= n
  {
    if |ns| == 1 then ns[0] else
    var rest := MinOf(ns[1..]);
    assert forall n :: n in ns ==> n == ns[0] || n in ns[1..];
    if ns[0] <= rest then ns[0] else rest
  }

  function MaxOf(ns: seq<int>): (m: int)
    requires ns != []
    ensures m in ns && forall n :: n in ns ==> n <= m
  {
    if |ns| == 1 then ns[0] else
    var rest := MaxOf(ns[1..]);
    assert forall n :: n in ns ==> n == ns[0] || n in ns[1..];
    if ns[0] >= rest then ns[0] else rest
  }

  /** Width codes 0 to 3 by the largest stored number above the base. */
  function WidthCode(range: nat): (code: nat)
    ensures code <= 3
  {
    if range == 0 then 0 else if range <= 0xFF then 1 else if range <= 0xFFFF then 2 else 3
  }

  function CodeField(widthCode: nat): Field
    requires 1 <= widthCode <= 3
  {
    [U8, U16, I32][widthCode - 1]
  }

  function DifferencesFrom(ns: seq<int>, minimum: int): (ds: seq<nat>)
    requires forall n :: n in ns ==> minimum <= n
    ensures |ds| == |ns|
    ensures forall i :: 0 <= i < |ns| ==> ds[i] == ns[i] - minimum
  {
    seq(|ns|, i requires 0 <= i < |ns| => assert ns[i] in ns; Above(ns[i], minimum))
  }

  function Above(n: int, minimum: int): (d: nat)
    requires minimum <= n
  {
    n - minimum
  }

  /** How a column's numbers are laid out: value = base + code × step. */
  datatype Layout = Layout(minimum: int, step: int, widthCode: nat)

  /** 1, but for strikes the greatest common divisor of what they are above the lowest one. */
  function StepOf(kind: ColumnKind, present: seq<int>): (step: nat)
    requires present != []
    ensures step > 0
  {
    var greatest := if kind == Strike then GcdOf(DifferencesFrom(present, MinOf(present))) else 1;
    if greatest == 0 then 1 else greatest
  }

  function LayoutOf(kind: ColumnKind, present: seq<int>): (layout: Layout)
    ensures layout.step > 0 && layout.widthCode <= 3
  {
    if present == [] then Layout(0, 1, 0) else
    var step := StepOf(kind, present);
    Layout(MinOf(present), step, WidthCode(Quotient(MaxOf(present) - MinOf(present), step)))
  }

  function CodesOf(cells: seq<Cell>, stored: seq<int>, layout: Layout): (codes: seq<int>)
    requires |cells| == |stored| && layout.step > 0
    ensures |codes| == |cells|
    ensures forall i :: 0 <= i < |cells| ==> codes[i] == if cells[i].Null? then 0 else Quotient(stored[i] - layout.minimum, layout.step)
  {
    seq(|cells|, i requires 0 <= i < |cells| => if cells[i].Null? then 0 else Quotient(stored[i] - layout.minimum, layout.step))
  }

  // ---------------------------------------------------------------------------------------
  // Writing a column

  datatype EncodedColumn = EncodedColumn(bytes: seq<byte>, previous: Option<PreviousColumn>)

  function EncodeRight(cells: seq<Cell>): Result<EncodedColumn, PackError> {
    if !RightColumn(cells) then Err(UnknownRight) else
    Ok(EncodedColumn(Bitmap(seq(|cells|, i requires 0 <= i < |cells| => cells[i] == Text("P"))), None))
  }

  function EncodeDoubles(f64: DoubleCodec, cells: seq<Cell>): (r: Result<seq<byte>, PackError>)
    requires NumberColumn(cells)
  {
    if cells == [] then Ok([]) else
    var last := |cells| - 1;
    var before :- EncodeDoubles(f64, cells[..last]);
    if cells[last].Null? then Ok(before + f64.nan) else
    match f64.encode(cells[last].value)
    case None => Err(FieldOverflow)
    case Some(bytes) => Ok(before + bytes)
  }

  function EncodeRaw(f64: DoubleCodec, cells: seq<Cell>, size: nat): Result<EncodedColumn, PackError>
    requires NumberColumn(cells)
  {
    var doubles :- EncodeDoubles(f64, cells);
    Ok(EncodedColumn([4] + Zeros(11) + Zeros(PaddedTo(size + 12, 8) - (size + 12)) + doubles, None))
  }

  function Descriptor(widthCode: nat, hasNulls: bool, overPrevious: bool): (d: byte)
    requires widthCode <= 3
  {
    widthCode + (if hasNulls then 8 else 0) + (if overPrevious then 16 else 0)
  }

  predicate LayoutFits(layout: Layout, codes: seq<int>)
    requires layout.widthCode <= 3
  {
    && Fits(I32, layout.minimum)
    && Fits(I32, layout.step)
    && (layout.widthCode > 0 ==> forall n :: n in codes ==> Fits(CodeField(layout.widthCode), n))
  }

  function PaddedArray(field: Field, ns: seq<int>): (bytes: seq<byte>)
    requires forall n :: n in ns ==> Fits(field, n)
    ensures |bytes| == PaddedTo(|ns| * Width(field), 4)
  {
    var packed := PackArray(field, ns);
    packed + Zeros(PaddedTo(|packed|, 4) - |packed|)
  }

  function ScaledBytes(cells: seq<Cell>, layout: Layout, codes: seq<int>, overPrevious: bool): seq<byte>
    requires layout.widthCode <= 3 && LayoutFits(layout, codes)
  {
    [Descriptor(layout.widthCode, HasNulls(cells), overPrevious), 0, 0, 0] + PackField(I32, layout.minimum) + PackField(I32, layout.step)
    + (if HasNulls(cells) then Bitmap(NullsOf(cells)) else [])
    + (if layout.widthCode > 0 then PaddedArray(CodeField(layout.widthCode), codes) else [])
  }

  function EncodeScaled(cells: seq<Cell>, kind: ColumnKind, previous: Option<PreviousColumn>): Result<EncodedColumn, PackError>
    requires PreviousFits(previous, |cells|)
  {
    var stored := StoredOf(cells, kind, previous);
    var layout := LayoutOf(kind, PresentOf(cells, stored));
    var codes := CodesOf(cells, stored, layout);
    if !LayoutFits(layout, codes) then Err(FieldOverflow) else
    Ok(EncodedColumn(ScaledBytes(cells, layout, codes, OverPrevious(cells, kind, previous)), Some(PreviousColumn(cells, UnitsOf(cells, kind)))))
  }

  /** One column's bytes when it starts `size` bytes into the slice. */
  function EncodeColumn(f64: DoubleCodec, cells: seq<Cell>, kind: ColumnKind, size: nat, previous: Option<PreviousColumn>): (r: Result<EncodedColumn, PackError>)
    requires PreviousFits(previous, |cells|)
    ensures r.Ok? ==> PreviousFits(r.value.previous, |cells|)
  {
    if kind == Right then EncodeRight(cells)
    else if !NumberColumn(cells) then Err(NotANumber)
    else if !ExactColumn(cells, kind) then EncodeRaw(f64, cells, size)
    else EncodeScaled(cells, kind, previous)
  }

  predicate Rectangular(rows: seq<Row>, width: nat) {
    forall i :: 0 <= i < |rows| ==> |rows[i]| == width
  }

  function ColumnOf(rows: seq<Row>, width: nat, column: nat): (cells: seq<Cell>)
    requires Rectangular(rows, width) && column < width
    ensures |cells| == |rows|
  {
    seq(|rows|, i requires 0 <= i < |rows| => rows[i][column])
  }

  /** The columns from `column` on, the first of them starting `size` bytes into the slice. */
  function EncodeColumns(f64: DoubleCodec, rows: seq<Row>, kinds: seq<ColumnKind>, column: nat, size: nat, previous: Option<PreviousColumn>): Result<seq<byte>, PackError>
    requires Rectangular(rows, |kinds|) && column <= |kinds| && PreviousFits(previous, |rows|)
    decreases |kinds| - column
  {
    if column == |kinds| then Ok([]) else
    var encoded :- EncodeColumn(f64, ColumnOf(rows, |kinds|, column), kinds[column], size, previous);
    var rest :- EncodeColumns(f64, rows, kinds, column + 1, size + |encoded.bytes|, encoded.previous);
    Ok(encoded.bytes + rest)
  }

  function PackedSlice(f64: DoubleCodec, rows: seq<Row>, kinds: seq<ColumnKind>): Result<seq<byte>, PackError>
    requires Rectangular(rows, |kinds|)
  {
    if !Fits(U32, |rows|) then Err(FieldOverflow) else
    var columns :- EncodeColumns(f64, rows, kinds, 0, 4, None);
    Ok(PackField(U32, |rows|) + columns)
  }

  // ---------------------------------------------------------------------------------------
  // Reading a column

  datatype DecodedColumn = DecodedColumn(cells: seq<Cell>, offset: nat, units: Option<seq<int>>)

  /** The bits of `count` contracts lie inside the data. */
  predicate BitsInside(data: seq<byte>, offset: nat, count: nat) {
    count == 0 || offset + (count - 1) / 8 < |data|
  }

  predicate BitAt(data: seq<byte>, offset: nat, index: nat)
    requires offset + index / 8 < |data|
  {
    HasBit(data[offset + index / 8], index % 8)
  }

  function DecodeRight(data: seq<byte>, offset: nat, count: nat): Result<DecodedColumn, UnpackError> {
    if !BitsInside(data, offset, count) then Err(Malformed) else
    var cells := seq(count, i requires 0 <= i < count => if BitAt(data, offset, i) then Text("P") else Text("C"));
    Ok(DecodedColumn(cells, offset + BitmapBytes(count), None))
  }

  function CellOfDouble(f64: DoubleCodec, bytes: seq<byte>): Cell {
    match f64.decode(bytes)
    case None => Null
    case Some(v) => Number(v)
  }

  function DecodeRaw(f64: DoubleCodec, data: seq<byte>, offset: nat, count: nat): Result<DecodedColumn, UnpackError> {
    var start := PaddedTo(offset + 12, 8);
    if start + 8 * count > |data| then Err(Malformed) else
    Ok(DecodedColumn(DoublesRead(f64, data, start, count), start + 8 * count, None))
  }

  function DoublesRead(f64: DoubleCodec, data: seq<byte>, start: nat, count: nat): (cells: seq<Cell>)
    requires start + 8 * count <= |data|
    ensures |cells| == count
    ensures forall i :: 0 <= i < count ==> cells[i] == CellOfDouble(f64, data[start + 8 * i..start + 8 * i + 8])
  {
    seq(count, i requires 0 <= i < count => CellOfDouble(f64, data[start + 8 * i..start + 8 * i + 8]))
  }

  /** The codes of a width, zeros for width 0; Err when they do not lie inside the data. */
  function DecodeCodes(data: seq<byte>, offset: nat, count: nat, widthCode: nat): (r: Result<seq<int>, UnpackError>)
    requires widthCode <= 3
    ensures r.Ok? ==> |r.value| == count
  {
    if widthCode == 0 then Ok(seq(count, _ => 0)) else
    var field := CodeField(widthCode);
    var length := count * Width(field);
    if offset + length > |data| then Err(Malformed) else
    Ok(UnpackArray(field, data[offset..offset + length], count))
  }

  function CellOfUnits(units: int, kind: ColumnKind): Cell {
    Number(units as real / Unit(kind) as real)
  }

  function NullsRead(data: seq<byte>, offset: nat, count: nat, hasNulls: bool): (nulls: seq<bool>)
    requires hasNulls ==> BitsInside(data, offset, count)
    ensures |nulls| == count
    ensures forall i :: 0 <= i < count ==> nulls[i] == (hasNulls && BitAt(data, offset, i))
  {
    seq(count, i requires 0 <= i < count => hasNulls && BitAt(data, offset, i))
  }

  function UnitsRead(nulls: seq<bool>, base: int, codes: seq<int>, step: int, previous: Option<seq<int>>): (units: seq<int>)
    requires |codes| == |nulls| && (previous.Some? ==> |previous.value| == |nulls|)
    ensures |units| == |nulls|
    ensures forall i :: 0 <= i < |nulls| ==>
      units[i] == if nulls[i] then 0 else base + Product(codes[i], step) + (if previous.Some? then previous.value[i] else 0)
  {
    seq(|nulls|, i requires 0 <= i < |nulls| =>
      if nulls[i] then 0 else base + Product(codes[i], step) + (if previous.Some? then previous.value[i] else 0))
  }

  function CellsRead(nulls: seq<bool>, units: seq<int>, kind: ColumnKind): (cells: seq<Cell>)
    requires |units| == |nulls|
    ensures |cells| == |nulls|
    ensures forall i :: 0 <= i < |nulls| ==> cells[i] == if nulls[i] then Null else CellOfUnits(units[i], kind)
  {
    seq(|nulls|, i requires 0 <= i < |nulls| => if nulls[i] then Null else CellOfUnits(units[i], kind))
  }

  function DecodeScaled(data: seq<byte>, offset: nat, count: nat, kind: ColumnKind, previous: Option<seq<int>>): (r: Result<DecodedColumn, UnpackError>)
    requires previous.Some? ==> |previous.value| == count
    ensures r.Ok? ==> |r.value.cells| == count && r.value.units.Some? && |r.value.units.value| == count
  {
    if offset + 12 > |data| then Err(Malformed) else
    var descriptor := data[offset];
    var widthCode, hasNulls, overPrevious := descriptor % 8, descriptor / 8 % 2 == 1, descriptor / 16 % 2 == 1;
    var base, step := UnpackField(I32, data[offset + 4..offset + 8]), UnpackField(I32, data[offset + 8..offset + 12]);
    var nullsAt := offset + 12;
    var codesAt := nullsAt + if hasNulls then BitmapBytes(count) else 0;
    if widthCode > 3 || (hasNulls && !BitsInside(data, nullsAt, count)) then Err(Malformed) else
    var codes :- DecodeCodes(data, codesAt, count, widthCode);
    var nulls := NullsRead(data, nullsAt, count, hasNulls);
    // A difference from a column that has no units: a TypeError at the first contract with a number.
    if overPrevious && previous.None? && (exists i :: 0 <= i < count && !nulls[i]) then Err(Malformed) else
    var units := UnitsRead(nulls, base, codes, step, if overPrevious then previous else None);
    var end := codesAt + if widthCode == 0 then 0 else PaddedTo(count * Width(CodeField(widthCode)), 4);
    Ok(DecodedColumn(CellsRead(nulls, units, kind), end, Some(units)))
  }

  /** One column read from `offset` on. */
  function DecodeColumn(f64: DoubleCodec, data: seq<byte>, offset: nat, count: nat, kind: ColumnKind, previous: Option<seq<int>>): (r: Result<DecodedColumn, UnpackError>)
    requires previous.Some? ==> |previous.value| == count
    ensures r.Ok? ==> |r.value.cells| == count
    ensures r.Ok? && r.value.units.Some? ==> |r.value.units.value| == count
  {
    if kind == Right then DecodeRight(data, offset, count)
    else if offset >= |data| then Err(Malformed)
    else if data[offset] % 8 == 4 then DecodeRaw(f64, data, offset, count)
    else DecodeScaled(data, offset, count, kind, previous)
  }

  function DecodeColumns(f64: DoubleCodec, data: seq<byte>, count: nat, kinds: seq<ColumnKind>, column: nat, offset: nat, previous: Option<seq<int>>): (r: Result<seq<seq<Cell>>, UnpackError>)
    requires column <= |kinds|
    requires previous.Some? ==> |previous.value| == count
    ensures r.Ok? ==> |r.value| == |kinds| - column
    ensures r.Ok? ==> forall c :: 0 <= c < |r.value| ==> |r.value[c]| == count
    decreases |kinds| - column
  {
    if column == |kinds| then Ok([]) else
    var decoded :- DecodeColumn(f64, data, offset, count, kinds[column], previous);
    var rest :- DecodeColumns(f64, data, count, kinds, column + 1, decoded.offset, decoded.units);
    Ok([decoded.cells] + rest)
  }

  function Transposed(columns: seq<seq<Cell>>, count: nat): (rows: seq<Row>)
    requires forall c :: 0 <= c < |columns| ==> |columns[c]| == count
    ensures |rows| == count && Rectangular(rows, |columns|)
  {
    seq(count, i requires 0 <= i < count => seq(|columns|, c requires 0 <= c < |columns| => columns[c][i]))
  }

  function UnpackedSlice(f64: DoubleCodec, data: seq<byte>, kinds: seq<ColumnKind>): Result<seq<Row>, UnpackError> {
    if |data| < 4 then Err(Malformed) else
    var count := UnpackField(U32, data[..4]);
    var columns :- DecodeColumns(f64, data, count, kinds, 0, 4, None);
    Ok(Transposed(columns, count))
  }
}
