/**
 The bytes of a slice as the format says them, field by field (the module text of
 scripts/backtest/symbol_file_slices.py): which rows a reader finds in any bytes, and what
 pack_slice chose for each column.
 */
module SliceLayout {
  import opened Wrappers
  import opened Bytes
  import opened GreatestCommonDivisor
  import opened SliceCodec
  import opened SliceRoundTrip
  import opened SlicePackable

  // ---------------------------------------------------------------------------------------
  // Where things are

  function Unsigned16(data: seq<byte>, at: nat): nat
    requires at + 2 <= |data|
  {
    data[at] as int + 0x100 * data[at + 1] as int
  }

  function Unsigned32(data: seq<byte>, at: nat): nat
    requires at + 4 <= |data|
  {
    data[at] as int + 0x100 * data[at + 1] as int + 0x1_0000 * data[at + 2] as int + 0x100_0000 * data[at + 3] as int
  }

  function Signed32(data: seq<byte>, at: nat): int
    requires at + 4 <= |data|
  {
    var n := Unsigned32(data, at);
    if n < 0x8000_0000 then n else n - 0x1_0000_0000
  }

  /** Bit i of a bitmap, the lowest bit of its first byte the first. */
  predicate BitSet(data: seq<byte>, at: nat, i: nat)
    requires at + i / 8 < |data|
  {
    data[at + i / 8] / [1, 2, 4, 8, 16, 32, 64, 128][i % 8] % 2 == 1
  }

  /** A bit for each contract, in whole 4 bytes. */
  function BitsSize(count: nat): nat {
    (count + 31) / 32 * 4
  }

  function CodeBytes(width: nat): nat
    requires width <= 3
  {
    [0, 1, 2, 4][width]
  }

  /** Where a column of numbers has the values, or the doubles. */
  function ValuesStart(data: seq<byte>, start: nat, count: nat): nat
    requires start < |data|
  {
    if data[start] % 8 == 4 then (start + 12 + 7) / 8 * 8 else
    start + 12 + if data[start] / 8 % 2 == 1 then BitsSize(count) else 0
  }

  function ColumnEnd(data: seq<byte>, start: nat, count: nat, kind: ColumnKind): nat {
    if kind == Right then start + BitsSize(count) else
    if start >= |data| || data[start] % 8 > 4 then start else
    ValuesStart(data, start, count) + if data[start] % 8 == 4 then 8 * count else (count * CodeBytes(data[start] % 8) + 3) / 4 * 4
  }

  function ColumnStart(data: seq<byte>, count: nat, kinds: seq<ColumnKind>, c: nat): nat
    requires c <= |kinds|
  {
    if c == 0 then 4 else ColumnEnd(data, ColumnStart(data, count, kinds, c - 1), count, kinds[c - 1])
  }

  /** The value stored for contract i. */
  function CodeAt(data: seq<byte>, at: nat, width: nat, i: nat): int
    requires width <= 3 && (width > 0 ==> at + (i + 1) * CodeBytes(width) <= |data|)
  {
    if width == 0 then 0 else if width == 1 then data[at + i] else if width == 2 then Unsigned16(data, at + 2 * i) else Signed32(data, at + 4 * i)
  }

  // ---------------------------------------------------------------------------------------
  // The columns they hold

  /** A number in its column's unit: thousandths of a dollar for strikes, cents for prices, counts as they are; 0 where there is none. */
  function InUnits(cell: Cell, kind: ColumnKind): real {
    if !cell.Number? then 0.0 else if kind == Strike then cell.value * 1000.0 else if kind == Count then cell.value else cell.value * 100.0
  }

  predicate HoldsRights(data: seq<byte>, start: nat, cells: seq<Cell>) {
    && (cells != [] ==> start + (|cells| - 1) / 8 < |data|)
    && forall i :: 0 <= i < |cells| ==> cells[i] == Text(if BitSet(data, start, i) then "P" else "C")
  }

  predicate HoldsDoubles(f64: DoubleCodec, data: seq<byte>, start: nat, cells: seq<Cell>)
    requires start < |data| && data[start] % 8 == 4
  {
    var at := ValuesStart(data, start, |cells|);
    && at + 8 * |cells| <= |data|
    && forall i :: 0 <= i < |cells| ==> cells[i] == var read := f64.decode(data[at + 8 * i..at + 8 * i + 8]); if read.Some? then Number(read.value) else Null
  }

  predicate Missing(data: seq<byte>, start: nat, i: nat)
    requires start < |data| && (data[start] / 8 % 2 == 1 ==> start + 12 + i / 8 < |data|)
  {
    data[start] / 8 % 2 == 1 && BitSet(data, start + 12, i)
  }

  /** The descriptor, the null bitmap and the values lie inside the data. */
  predicate ScaledInside(data: seq<byte>, start: nat, count: nat) {
    && start + 12 <= |data| && data[start] % 8 <= 3
    && (data[start] / 8 % 2 == 1 && count > 0 ==> start + 12 + (count - 1) / 8 < |data|)
    && (data[start] % 8 > 0 ==> ValuesStart(data, start, count) + count * CodeBytes(data[start] % 8) <= |data|)
  }

  /** base + value × step, and the number of the column before where the descriptor's fifth bit is set. */
  predicate HoldsNumber(data: seq<byte>, start: nat, count: nat, cell: Cell, kind: ColumnKind, before: Option<seq<real>>, i: nat)
    requires i < count && ScaledInside(data, start, count) && (before.Some? ==> |before.value| == count)
  {
    assert (i + 1) * CodeBytes(data[start] % 8) <= count * CodeBytes(data[start] % 8);
    if Missing(data, start, i) then cell == Null else
    var over := data[start] / 16 % 2 == 1;
    var base, step, code := Signed32(data, start + 4), Signed32(data, start + 8), CodeAt(data, ValuesStart(data, start, count), data[start] % 8, i);
    cell.Number? && (over ==> before.Some?) && InUnits(cell, kind) == (base + code * step) as real + if over then before.value[i] else 0.0
  }

  predicate HoldsScaled(data: seq<byte>, start: nat, cells: seq<Cell>, kind: ColumnKind, before: Option<seq<real>>)
    requires before.Some? ==> |before.value| == |cells|
  {
    && ScaledInside(data, start, |cells|)
    && forall i :: 0 <= i < |cells| ==> HoldsNumber(data, start, |cells|, cells[i], kind, before, i)
  }

  predicate HoldsColumn(f64: DoubleCodec, data: seq<byte>, start: nat, cells: seq<Cell>, kind: ColumnKind, before: Option<seq<real>>)
    requires before.Some? ==> |before.value| == |cells|
  {
    if kind == Right then HoldsRights(data, start, cells) else
    start < |data| && if data[start] % 8 == 4 then HoldsDoubles(f64, data, start, cells) else HoldsScaled(data, start, cells, kind, before)
  }

  /** The numbers a difference is taken from: the column before's in its unit, unless it is of rights or doubles. */
  function Before(data: seq<byte>, rows: seq<Row>, kinds: seq<ColumnKind>, c: nat): (before: Option<seq<real>>)
    requires Rectangular(rows, |kinds|) && c <= |kinds|
    ensures before.Some? ==> |before.value| == |rows|
  {
    if c == 0 || kinds[c - 1] == Right then None else
    var start := ColumnStart(data, |rows|, kinds, c - 1);
    if start < |data| && data[start] % 8 == 4 then None else
    Some(seq(|rows|, i requires 0 <= i < |rows| => InUnits(rows[i][c - 1], kinds[c - 1])))
  }

  predicate HoldsColumnOf(f64: DoubleCodec, data: seq<byte>, rows: seq<Row>, kinds: seq<ColumnKind>, c: nat)
    requires Rectangular(rows, |kinds|) && c < |kinds|
  {
    HoldsColumn(f64, data, ColumnStart(data, |rows|, kinds, c), ColumnOf(rows, |kinds|, c), kinds[c], Before(data, rows, kinds, c))
  }

  /** The contract count, and each column after the one before it. */
  predicate HoldsSlice(f64: DoubleCodec, data: seq<byte>, rows: seq<Row>, kinds: seq<ColumnKind>)
    requires Rectangular(rows, |kinds|)
  {
    && |data| >= 4 && Unsigned32(data, 0) == |rows|
    && forall c :: 0 <= c < |kinds| ==> HoldsColumnOf(f64, data, rows, kinds, c)
  }

  // ---------------------------------------------------------------------------------------
  // Fields, bits and values, as struct and the loops read them

  lemma FieldAt(data: seq<byte>, at: nat, field: Field)
    requires at + Width(field) <= |data|
    ensures UnpackField(field, data[at..at + Width(field)])
            == match field case U8 => data[at] case U16 => Unsigned16(data, at) case I32 => Signed32(data, at) case U32 => Unsigned32(data, at)
  {
    var bytes := data[at..at + Width(field)];
    assert FromLittleEndian(bytes) == bytes[0] + 0x100 * FromLittleEndian(bytes[1..]);
    if field != U8 {
      assert FromLittleEndian(bytes[1..]) == bytes[1] + 0x100 * FromLittleEndian(bytes[1..][1..]);
      assert bytes[1..][1..] == bytes[2..];
      if field != U16 {
        assert FromLittleEndian(bytes[2..]) == bytes[2] + 0x100 * FromLittleEndian(bytes[2..][1..]);
        assert bytes[2..][1..] == bytes[3..];
        assert FromLittleEndian(bytes[3..]) == bytes[3] + 0x100 * FromLittleEndian(bytes[3..][1..]);
      }
    }
  }

  lemma OneMoreValue(i: nat, count: nat, width: nat)
    requires 0 < i < count
    ensures (i - 1) * width + width == i * width && i * width + width == (i + 1) * width && (count - 1) * width + width == count * width
    ensures width <= i * width && (i + 1) * width <= count * width
  {}

  lemma {:induction false} ValueAt(field: Field, bytes: seq<byte>, count: nat, i: nat)
    requires |bytes| == count * Width(field) && i < count
    ensures (i + 1) * Width(field) <= |bytes|
    ensures UnpackArray(field, bytes, count)[i] == UnpackField(field, bytes[i * Width(field)..(i + 1) * Width(field)])
  {
    hide UnpackField, Width;
    var width := Width(field);
    if i > 0 {
      OneMoreValue(i, count, width);
      var rest := bytes[width..];
      ValueAt(field, rest, count - 1, i - 1);
      SliceOfSlice(bytes, width, |bytes|, (i - 1) * width, i * width);
      assert bytes[width..|bytes|] == rest;
    } else {
      assert (i + 1) * width == width && width <= count * width;
    }
  }

  lemma Halved(b: byte, position: nat)
    requires 0 < position < 8
    ensures b / 2 / [1, 2, 4, 8, 16, 32, 64, 128][position - 1] == b / [1, 2, 4, 8, 16, 32, 64, 128][position]
  {
    assert b / 2 / 2 == b / 4 && b / 2 / 4 == b / 8 && b / 2 / 8 == b / 16 && b / 2 / 16 == b / 32 && b / 2 / 32 == b / 64 && b / 2 / 64 == b / 128;
  }

  lemma {:induction false} BitOf(b: byte, position: nat)
    requires position < 8
    ensures HasBit(b, position) <==> b / [1, 2, 4, 8, 16, 32, 64, 128][position] % 2 == 1
  {
    if position > 0 {
      BitOf(b / 2, position - 1);
      Halved(b, position);
    }
  }

  lemma BitReadAt(data: seq<byte>, at: nat, i: nat)
    requires at + i / 8 < |data|
    ensures BitAt(data, at, i) <==> BitSet(data, at, i)
  {
    BitOf(data[at + i / 8], i % 8);
  }

  lemma SizesAre(count: nat, at: nat)
    ensures BitmapBytes(count) == BitsSize(count) && PaddedTo(at + 12, 8) == (at + 12 + 7) / 8 * 8 && PaddedTo(count, 4) == (count + 3) / 4 * 4
  {}

  // ---------------------------------------------------------------------------------------
  // Any bytes, read

  lemma RightsRead(data: seq<byte>, start: nat, cells: seq<Cell>)
    ensures DecodeRight(data, start, |cells|) == Ok(DecodedColumn(cells, start + BitsSize(|cells|), None)) <==> HoldsRights(data, start, cells)
  {
    hide BitSet, BitAt, BitmapBytes, BitsSize;
    SizesAre(|cells|, 0);
    if BitsInside(data, start, |cells|) {
      forall i | 0 <= i < |cells|
        ensures BitAt(data, start, i) <==> BitSet(data, start, i)
      {
        BitReadAt(data, start, i);
      }
      var read := DecodeRight(data, start, |cells|).value.cells;
      if HoldsRights(data, start, cells) {
        assert read == cells;
      } else {
        var i :| 0 <= i < |cells| && cells[i] != Text(if BitSet(data, start, i) then "P" else "C");
        assert read[i] != cells[i];
      }
    }
  }

  lemma DoublesFound(f64: DoubleCodec, data: seq<byte>, start: nat, cells: seq<Cell>)
    requires start < |data| && data[start] % 8 == 4
    ensures DecodeRaw(f64, data, start, |cells|) == Ok(DecodedColumn(cells, ColumnEnd(data, start, |cells|, Count), None)) <==> HoldsDoubles(f64, data, start, cells)
  {
    hide PaddedTo;
    SizesAre(|cells|, start);
    var at := ValuesStart(data, start, |cells|);
    if at + 8 * |cells| <= |data| {
      var read := DoublesRead(f64, data, at, |cells|);
      if HoldsDoubles(f64, data, start, cells) {
        assert read == cells;
      }
    }
  }

  /** Decoded units are the numbers of the column before in its unit. */
  predicate AreUnits(units: Option<seq<int>>, numbers: Option<seq<real>>) {
    && (units.Some? <==> numbers.Some?)
    && (units.Some? ==> |units.value| == |numbers.value| && forall i :: 0 <= i < |units.value| ==> units.value[i] as real == numbers.value[i])
  }

  predicate Over(data: seq<byte>, start: nat)
    requires start < |data|
  {
    data[start] / 16 % 2 == 1
  }

  /** What the reader makes of contract i. */
  function UnitsFound(data: seq<byte>, start: nat, count: nat, previous: Option<seq<int>>, i: nat): int
    requires i < count && ScaledInside(data, start, count) && (Over(data, start) && !Missing(data, start, i) ==> previous.Some? && |previous.value| == count)
  {
    assert (i + 1) * CodeBytes(data[start] % 8) <= count * CodeBytes(data[start] % 8);
    if Missing(data, start, i) then 0 else
    Signed32(data, start + 4) + Product(CodeAt(data, ValuesStart(data, start, count), data[start] % 8, i), Signed32(data, start + 8))
    + if Over(data, start) then previous.value[i] else 0
  }

  lemma CodesFound(data: seq<byte>, at: nat, count: nat, width: nat)
    requires width <= 3
    ensures DecodeCodes(data, at, count, width).Ok? <==> width > 0 ==> at + count * CodeBytes(width) <= |data|
    ensures DecodeCodes(data, at, count, width).Ok? ==> forall i :: 0 <= i < count ==>
              (width > 0 ==> at + (i + 1) * CodeBytes(width) <= |data|) && DecodeCodes(data, at, count, width).value[i] == CodeAt(data, at, width, i)
  {
    hide UnpackArray, UnpackField, Signed32, Unsigned16;
    if width > 0 && at + count * CodeBytes(width) <= |data| {
      var field := CodeField(width);
      assert Width(field) == CodeBytes(width);
      var bytes := data[at..at + count * Width(field)];
      forall i | 0 <= i < count
        ensures at + (i + 1) * CodeBytes(width) <= |data| && DecodeCodes(data, at, count, width).value[i] == CodeAt(data, at, width, i)
      {
        ValueAt(field, bytes, count, i);
        SliceOfSlice(data, at, at + |bytes|, i * Width(field), (i + 1) * Width(field));
        FieldAt(data, at + i * Width(field), field);
      }
    }
  }

  lemma NullsFound(data: seq<byte>, start: nat, count: nat)
    requires ScaledInside(data, start, count)
    ensures data[start] / 8 % 2 == 1 ==> BitsInside(data, start + 12, count)
    ensures forall i :: 0 <= i < count ==> NullsRead(data, start + 12, count, data[start] / 8 % 2 == 1)[i] == Missing(data, start, i)
  {
    hide BitAt, BitSet;
    var at := start + 12;
    forall i | 0 <= i < count && data[start] / 8 % 2 == 1
      ensures BitAt(data, at, i) <==> BitSet(data, at, i)
    {
      BitReadAt(data, at, i);
    }
  }

  /** The reader succeeds when the column lies inside the data and no difference lacks what it is taken from. */
  lemma ScaledIsReadWhen(data: seq<byte>, start: nat, count: nat, kind: ColumnKind, previous: Option<seq<int>>)
    requires kind != Right && start < |data| && data[start] % 8 != 4 && (previous.Some? ==> |previous.value| == count)
    ensures DecodeScaled(data, start, count, kind, previous).Ok?
            <==> ScaledInside(data, start, count) && (Over(data, start) && previous.None? ==> forall i :: 0 <= i < count ==> Missing(data, start, i))
  {
    hide BitSet, BitAt, NullsRead, DecodeCodes, CodeAt, UnpackField, PaddedTo, BitmapBytes, BitsSize, UnitsRead, CellsRead, CodeBytes;
    SizesAre(count, start);
    if start + 12 <= |data| && data[start] % 8 <= 3 {
      CodesFound(data, ValuesStart(data, start, count), count, data[start] % 8);
      if ScaledInside(data, start, count) {
        NullsFound(data, start, count);
        var nulls := NullsRead(data, start + 12, count, data[start] / 8 % 2 == 1);
        if i :| 0 <= i < count && !Missing(data, start, i) {
          assert !nulls[i];
        } else {
          forall i | 0 <= i < count
            ensures nulls[i]
          {
            assert Missing(data, start, i);
          }
        }
      }
    }
  }

  lemma ScaledIsRead(data: seq<byte>, start: nat, count: nat, kind: ColumnKind, previous: Option<seq<int>>)
    requires kind != Right && start < |data| && data[start] % 8 != 4 && (previous.Some? ==> |previous.value| == count)
    requires ScaledInside(data, start, count) && (Over(data, start) && previous.None? ==> forall i :: 0 <= i < count ==> Missing(data, start, i))
    requires DecodeScaled(data, start, count, kind, previous).Ok?
    ensures DecodeScaled(data, start, count, kind, previous).value.offset == ColumnEnd(data, start, count, kind)
    ensures forall i :: 0 <= i < count ==>
              && DecodeScaled(data, start, count, kind, previous).value.units.value[i] == UnitsFound(data, start, count, previous, i)
              && DecodeScaled(data, start, count, kind, previous).value.cells[i]
                 == if Missing(data, start, i) then Null else CellOfUnits(UnitsFound(data, start, count, previous, i), kind)
  {
    hide BitSet, BitAt, NullsRead, DecodeCodes, CodeAt, UnpackField, Signed32, PaddedTo, BitsInside, BitmapBytes, BitsSize, CellOfUnits, Missing, Product;
    SizesAre(count, start);
    FieldAt(data, start + 4, I32);
    FieldAt(data, start + 8, I32);
    CodesFound(data, ValuesStart(data, start, count), count, data[start] % 8);
    NullsFound(data, start, count);
    CodesEnd(data[start] % 8, count);
  }

  lemma CodesEnd(width: nat, count: nat)
    requires width <= 3
    ensures (count * CodeBytes(width) + 3) / 4 * 4 == if width == 0 then 0 else PaddedTo(count * Width(CodeField(width)), 4)
  {}

  lemma CellHolds(units: int, cell: Cell, kind: ColumnKind)
    requires kind != Right
    ensures cell == CellOfUnits(units, kind) <==> cell.Number? && InUnits(cell, kind) == units as real
  {}

  /** One number as the reader makes it, and as the format says it. */
  lemma NumberFound(data: seq<byte>, start: nat, count: nat, cell: Cell, kind: ColumnKind, previous: Option<seq<int>>, before: Option<seq<real>>, i: nat)
    requires kind != Right && i < count && ScaledInside(data, start, count) && AreUnits(previous, before) && (before.Some? ==> |before.value| == count)
    requires Over(data, start) && !Missing(data, start, i) ==> previous.Some?
    ensures cell == (if Missing(data, start, i) then Null else CellOfUnits(UnitsFound(data, start, count, previous, i), kind))
            <==> HoldsNumber(data, start, count, cell, kind, before, i)
    ensures HoldsNumber(data, start, count, cell, kind, before, i) ==> UnitsFound(data, start, count, previous, i) as real == InUnits(cell, kind)
  {
    hide Missing, CellOfUnits, CodeAt, Signed32;
    CellHolds(UnitsFound(data, start, count, previous, i), cell, kind);
  }

  lemma ScaledFound(data: seq<byte>, start: nat, cells: seq<Cell>, kind: ColumnKind, previous: Option<seq<int>>, before: Option<seq<real>>)
    requires kind != Right && start < |data| && data[start] % 8 != 4
    requires AreUnits(previous, before) && (before.Some? ==> |before.value| == |cells|)
    ensures var read := DecodeScaled(data, start, |cells|, kind, previous);
            && (read.Ok? && read.value.cells == cells <==> HoldsScaled(data, start, cells, kind, before))
            && (read.Ok? && read.value.cells == cells ==>
                  read.value.offset == ColumnEnd(data, start, |cells|, kind)
                  && forall i :: 0 <= i < |cells| ==> read.value.units.value[i] as real == InUnits(cells[i], kind))
  {
    hide Missing, UnitsFound, CellOfUnits, DecodeScaled, HoldsNumber, ColumnEnd, InUnits, ScaledInside;
    ScaledIsReadWhen(data, start, |cells|, kind, previous);
    var read := DecodeScaled(data, start, |cells|, kind, previous);
    if read.Ok? {
      ScaledIsRead(data, start, |cells|, kind, previous);
      forall i | 0 <= i < |cells|
        ensures read.value.cells[i] == cells[i] <==> HoldsNumber(data, start, |cells|, cells[i], kind, before, i)
        ensures HoldsNumber(data, start, |cells|, cells[i], kind, before, i) ==> read.value.units.value[i] as real == InUnits(cells[i], kind)
      {
        NumberFound(data, start, |cells|, cells[i], kind, previous, before, i);
      }
      assert (forall i :: 0 <= i < |cells| ==> read.value.cells[i] == cells[i]) ==> read.value.cells == cells;
    } else if ScaledInside(data, start, |cells|) {
      NoDifferenceOfNothing(data, start, cells, kind, before);
    }
  }

  lemma NoDifferenceOfNothing(data: seq<byte>, start: nat, cells: seq<Cell>, kind: ColumnKind, before: Option<seq<real>>)
    requires ScaledInside(data, start, |cells|) && Over(data, start) && before.None?
    requires exists i :: 0 <= i < |cells| && !Missing(data, start, i)
    ensures !HoldsScaled(data, start, cells, kind, before)
  {
    hide Missing;
    var i :| 0 <= i < |cells| && !Missing(data, start, i);
    assert !HoldsNumber(data, start, |cells|, cells[i], kind, before, i);
  }

  /** The reader finds a column's cells exactly when the bytes hold them, and goes on where it ends. */
  lemma ColumnFound(f64: DoubleCodec, data: seq<byte>, start: nat, cells: seq<Cell>, kind: ColumnKind, previous: Option<seq<int>>, before: Option<seq<real>>)
    requires AreUnits(previous, before) && (before.Some? ==> |before.value| == |cells|)
    ensures var read := DecodeColumn(f64, data, start, |cells|, kind, previous);
            && (read.Ok? && read.value.cells == cells <==> HoldsColumn(f64, data, start, cells, kind, before))
            && (read.Ok? && read.value.cells == cells ==>
                  && read.value.offset == ColumnEnd(data, start, |cells|, kind)
                  && (read.value.units.None? <==> kind == Right || (start < |data| && data[start] % 8 == 4))
                  && (read.value.units.Some? ==> forall i :: 0 <= i < |cells| ==> read.value.units.value[i] as real == InUnits(cells[i], kind)))
  {
    hide DecodeRight, DecodeRaw, DecodeScaled, HoldsRights, HoldsDoubles, HoldsScaled, InUnits, BitsSize, ValuesStart;
    if kind == Right {
      RightsRead(data, start, cells);
      RightsEnd(data, start, |cells|);
    } else if start < |data| {
      if data[start] % 8 == 4 {
        DoublesFound(f64, data, start, cells);
        DoublesEnd(f64, data, start, |cells|);
      } else {
        ScaledFound(data, start, cells, kind, previous, before);
        ScaledHasUnits(data, start, |cells|, kind, previous);
      }
    }
  }

  lemma RightsEnd(data: seq<byte>, start: nat, count: nat)
    ensures var read := DecodeRight(data, start, count); read.Ok? ==> read.value.offset == start + BitsSize(count) && read.value.units.None?
  {
    SizesAre(count, 0);
  }

  lemma DoublesEnd(f64: DoubleCodec, data: seq<byte>, start: nat, count: nat)
    requires start < |data| && data[start] % 8 == 4
    ensures var read := DecodeRaw(f64, data, start, count); read.Ok? ==> read.value.offset == ValuesStart(data, start, count) + 8 * count && read.value.units.None?
  {
    SizesAre(count, start);
  }

  lemma ScaledHasUnits(data: seq<byte>, start: nat, count: nat, kind: ColumnKind, previous: Option<seq<int>>)
    requires previous.Some? ==> |previous.value| == count
    ensures DecodeScaled(data, start, count, kind, previous).Ok? ==> DecodeScaled(data, start, count, kind, previous).value.units.Some?
  {
    hide UnitsRead, CellsRead, DecodeCodes, NullsRead, UnpackField, PaddedTo, BitsInside, BitmapBytes;
  }

  // ---------------------------------------------------------------------------------------
  // Any slice, read

  function ColumnsFrom(rows: seq<Row>, width: nat, c: nat): (columns: seq<seq<Cell>>)
    requires Rectangular(rows, width) && c <= width
    ensures |columns| == width - c
    ensures forall d :: c <= d < width ==> columns[d - c] == ColumnOf(rows, width, d)
  {
    seq(width - c, i requires 0 <= i < width - c => ColumnOf(rows, width, c + i))
  }

  lemma NextStart(data: seq<byte>, count: nat, kinds: seq<ColumnKind>, c: nat)
    requires c < |kinds|
    ensures ColumnStart(data, count, kinds, c + 1) == ColumnEnd(data, ColumnStart(data, count, kinds, c), count, kinds[c])
  {}

  lemma {:induction false} ColumnsFound(f64: DoubleCodec, data: seq<byte>, rows: seq<Row>, kinds: seq<ColumnKind>, c: nat, previous: Option<seq<int>>)
    requires Rectangular(rows, |kinds|) && c <= |kinds| && AreUnits(previous, Before(data, rows, kinds, c))
    ensures DecodeColumns(f64, data, |rows|, kinds, c, ColumnStart(data, |rows|, kinds, c), previous) == Ok(ColumnsFrom(rows, |kinds|, c))
            <==> forall d :: c <= d < |kinds| ==> HoldsColumnOf(f64, data, rows, kinds, d)
    decreases |kinds| - c
  {
    hide DecodeColumn, HoldsColumn, ColumnOf, Before, ColumnStart, ColumnEnd;
    if c < |kinds| {
      var start, cells := ColumnStart(data, |rows|, kinds, c), ColumnOf(rows, |kinds|, c);
      var read := DecodeColumn(f64, data, start, |rows|, kinds[c], previous);
      ColumnFound(f64, data, start, cells, kinds[c], previous, Before(data, rows, kinds, c));
      assert ColumnsFrom(rows, |kinds|, c) == [cells] + ColumnsFrom(rows, |kinds|, c + 1);
      if HoldsColumnOf(f64, data, rows, kinds, c) {
        UnitsBeforeNext(data, rows, kinds, c, read.value.units);
        NextStart(data, |rows|, kinds, c);
        ColumnsFound(f64, data, rows, kinds, c + 1, read.value.units);
        var rest := DecodeColumns(f64, data, |rows|, kinds, c + 1, read.value.offset, read.value.units);
        if rest.Ok? {
          SameRest(cells, rest.value, ColumnsFrom(rows, |kinds|, c + 1));
        }
      } else {
        HeadDiffers(f64, data, |rows|, kinds, c, start, previous, cells);
      }
    }
  }

  lemma SameRest(head: seq<Cell>, a: seq<seq<Cell>>, b: seq<seq<Cell>>)
    ensures [head] + a == [head] + b <==> a == b
  {
    assert ([head] + a)[1..] == a && ([head] + b)[1..] == b;
  }

  lemma HeadDiffers(f64: DoubleCodec, data: seq<byte>, count: nat, kinds: seq<ColumnKind>, c: nat, start: nat, previous: Option<seq<int>>, cells: seq<Cell>)
    requires c < |kinds| && (previous.Some? ==> |previous.value| == count)
    requires var read := DecodeColumn(f64, data, start, count, kinds[c], previous); read.Ok? ==> read.value.cells != cells
    ensures var columns := DecodeColumns(f64, data, count, kinds, c, start, previous); columns.Ok? ==> columns.value[0] != cells
  {
    hide DecodeColumn;
  }

  lemma UnitsBeforeNext(data: seq<byte>, rows: seq<Row>, kinds: seq<ColumnKind>, c: nat, units: Option<seq<int>>)
    requires Rectangular(rows, |kinds|) && c < |kinds| && (units.Some? ==> |units.value| == |rows|)
    requires units.None? <==> kinds[c] == Right || (var start := ColumnStart(data, |rows|, kinds, c); start < |data| && data[start] % 8 == 4)
    requires units.Some? ==> forall i :: 0 <= i < |rows| ==> units.value[i] as real == InUnits(ColumnOf(rows, |kinds|, c)[i], kinds[c])
    ensures AreUnits(units, Before(data, rows, kinds, c + 1))
  {
    hide ColumnStart, InUnits;
    assert units.Some? ==> forall i :: 0 <= i < |rows| ==> ColumnOf(rows, |kinds|, c)[i] == rows[i][c];
  }

  /** For any bytes, unpack_slice returns rows exactly when the bytes hold those rows in the slice format. */
  lemma ReadsExactly(f64: DoubleCodec, data: seq<byte>, rows: seq<Row>, kinds: seq<ColumnKind>)
    requires Rectangular(rows, |kinds|)
    ensures UnpackedSlice(f64, data, kinds) == Ok(rows) <==> HoldsSlice(f64, data, rows, kinds)
  {
    hide DecodeColumns, HoldsColumnOf, UnpackField, Unsigned32;
    if |data| >= 4 {
      FieldAt(data, 0, U32);
      assert data[0..4] == data[..4];
      var columns := ColumnsFrom(rows, |kinds|, 0);
      if Unsigned32(data, 0) == |rows| {
        var read := DecodeColumns(f64, data, |rows|, kinds, 0, 4, None);
        ColumnsFound(f64, data, rows, kinds, 0, None);
        if read.Ok? {
          TransposedIs(read.value, rows, |kinds|);
        }
      }
    }
  }

  lemma TransposedIs(columns: seq<seq<Cell>>, rows: seq<Row>, width: nat)
    requires Rectangular(rows, width) && |columns| == width && forall c :: 0 <= c < width ==> |columns[c]| == |rows|
    ensures Transposed(columns, |rows|) == rows <==> columns == ColumnsFrom(rows, width, 0)
  {
    var transposed, whole := Transposed(columns, |rows|), ColumnsFrom(rows, width, 0);
    if transposed == rows {
      forall c | 0 <= c < width
        ensures columns[c] == whole[c]
      {
        assert forall i :: 0 <= i < |rows| ==> columns[c][i] == transposed[i][c];
      }
    }
    if columns == whole {
      forall i | 0 <= i < |rows|
        ensures transposed[i] == rows[i]
      {
        assert forall c :: 0 <= c < width ==> whole[c] == ColumnOf(rows, width, c);
      }
    }
  }

  // ---------------------------------------------------------------------------------------
  // What pack_slice writes

  /** A column's end as the reader moves on, whatever it read. */
  lemma EndFound(f64: DoubleCodec, data: seq<byte>, start: nat, count: nat, kind: ColumnKind, previous: Option<seq<int>>)
    requires previous.Some? ==> |previous.value| == count
    ensures var read := DecodeColumn(f64, data, start, count, kind, previous); read.Ok? ==> read.value.offset == ColumnEnd(data, start, count, kind)
  {
    hide DecodeRight, DecodeRaw, DecodeScaled, BitsSize, ValuesStart, ScaledInside, Missing, UnitsFound;
    if kind == Right {
      RightsEnd(data, start, count);
    } else if start < |data| {
      if data[start] % 8 == 4 {
        DoublesEnd(f64, data, start, count);
      } else {
        ScaledIsReadWhen(data, start, count, kind, previous);
        if DecodeScaled(data, start, count, kind, previous).Ok? {
          ScaledIsRead(data, start, count, kind, previous);
        }
      }
    }
  }

  /** The columns from c on lie where the format says, to the end of the data. */
  ghost predicate ColumnsLie(f64: DoubleCodec, data: seq<byte>, rows: seq<Row>, kinds: seq<ColumnKind>, c: nat)
    requires Rectangular(rows, |kinds|) && c <= |kinds|
  {
    var start := ColumnStart(data, |rows|, kinds, c);
    var rest := EncodeColumns(f64, rows, kinds, c, start, PreviousOf(rows, kinds, c));
    rest.Ok? && LiesAt(data, start, rest.value) && start + |rest.value| == |data|
  }

  ghost predicate ColumnLies(f64: DoubleCodec, data: seq<byte>, rows: seq<Row>, kinds: seq<ColumnKind>, c: nat)
    requires Rectangular(rows, |kinds|) && c < |kinds|
  {
    var start := ColumnStart(data, |rows|, kinds, c);
    var own := EncodeColumn(f64, ColumnOf(rows, |kinds|, c), kinds[c], start, PreviousOf(rows, kinds, c));
    own.Ok? && LiesAt(data, start, own.value.bytes)
  }

  lemma ColumnThenRest(f64: DoubleCodec, data: seq<byte>, rows: seq<Row>, kinds: seq<ColumnKind>, c: nat)
    requires f64.Valid() && Rectangular(rows, |kinds|) && c < |kinds| && ColumnsLie(f64, data, rows, kinds, c)
    ensures ColumnLies(f64, data, rows, kinds, c) && ColumnsLie(f64, data, rows, kinds, c + 1)
  {
    hide EncodeColumn, DecodeColumn, ColumnOf, PreviousOf, ColumnEnd, LiesAt, ColumnAsRead;
    var start, cells, previous := ColumnStart(data, |rows|, kinds, c), ColumnOf(rows, |kinds|, c), PreviousOf(rows, kinds, c);
    var own := EncodeColumn(f64, cells, kinds[c], start, previous).value;
    var rest := EncodeColumns(f64, rows, kinds, c + 1, start + |own.bytes|, own.previous).value;
    PartsLieAt(data, start, own.bytes, rest);
    ColumnReadBack(f64, data, start, cells, kinds[c], previous);
    EndFound(f64, data, start, |rows|, kinds[c], UnitsBefore(previous));
    ColumnLeavesPrevious(f64, rows, kinds, c, start);
  }

  lemma {:induction false} PackedLies(f64: DoubleCodec, rows: seq<Row>, kinds: seq<ColumnKind>, c: nat)
    requires f64.Valid() && Rectangular(rows, |kinds|) && c <= |kinds| && PackedSlice(f64, rows, kinds).Ok?
    ensures ColumnsLie(f64, PackedSlice(f64, rows, kinds).value, rows, kinds, c)
    ensures c < |kinds| ==> ColumnLies(f64, PackedSlice(f64, rows, kinds).value, rows, kinds, c)
  {
    hide EncodeColumns, ColumnLies, ColumnEnd;
    var data := PackedSlice(f64, rows, kinds).value;
    if c == 0 {
      PartsLieAt(data, 0, PackField(U32, |rows|), EncodeColumns(f64, rows, kinds, 0, 4, None).value);
    } else {
      PackedLies(f64, rows, kinds, c - 1);
      ColumnThenRest(f64, data, rows, kinds, c - 1);
    }
    if c < |kinds| {
      ColumnThenRest(f64, data, rows, kinds, c);
    }
  }

  /** A packed slice holds its rows in the format, each number kept as a double as that double reads, and nothing after them. */
  lemma PackedHolds(f64: DoubleCodec, rows: seq<Row>, kinds: seq<ColumnKind>)
    requires f64.Valid() && Rectangular(rows, |kinds|) && PackedSlice(f64, rows, kinds).Ok?
    ensures var data := PackedSlice(f64, rows, kinds).value;
            HoldsSlice(f64, data, RowsAsRead(f64, rows, kinds), kinds) && |data| == ColumnStart(data, |rows|, kinds, |kinds|)
  {
    hide PackedSlice, HoldsSlice, RowsAsRead, UnpackedSlice, ColumnStart;
    UnpackOfPack(f64, rows, kinds);
    ReadsExactly(f64, PackedSlice(f64, rows, kinds).value, RowsAsRead(f64, rows, kinds), kinds);
    PackedLies(f64, rows, kinds, |kinds|);
  }

  // ---------------------------------------------------------------------------------------
  // What it chose

  /** A whole number of its unit that an int32 holds; the lowest int32 is left out. */
  predicate IsWhole(cell: Cell, kind: ColumnKind) {
    var units := InUnits(cell, kind);
    units == units.Floor as real && -2147483648.0 < units <= 2147483647.0
  }

  lemma WholeNumber(value: real, kind: ColumnKind)
    requires kind != Right
    ensures var units, scaled := InUnits(Number(value), kind), ScaledValue(value, kind);
            (scaled as real / Unit(kind) as real == value <==> units == units.Floor as real) && (units == units.Floor as real ==> scaled as real == units)
  {
    var units, unit := InUnits(Number(value), kind), Unit(kind) as real;
    assert units == value * unit;
    assert ScaledValue(value, kind) == (units + 0.5).Floor;
    hide InUnits, Unit, ScaledValue, JavascriptRound;
    RoundedIs(units);
    DividedIs(ScaledValue(value, kind) as real, unit, value);
  }

  lemma WholeIsExact(cell: Cell, kind: ColumnKind)
    requires kind != Right && IsNumberOrNull(cell)
    ensures ExactCell(cell, kind) <==> IsWhole(cell, kind)
    ensures ExactCell(cell, kind) ==> UnitsOfCell(cell, kind) as real == InUnits(cell, kind)
  {
    assert !cell.Number? ==> InUnits(cell, kind) == 0.0;
    hide InUnits, ScaledValue, Unit;
    if cell.Number? {
      WholeNumber(cell.value, kind);
    }
  }

  lemma DividedIs(n: real, unit: real, value: real)
    requires unit > 0.0
    ensures n / unit == value <==> n == value * unit
  {
    var quotient := n / unit;
    assert quotient * unit == n;
    if n == value * unit {
      assert (quotient - value) * unit == 0.0;
    }
  }

  lemma FloorOf(n: int)
    ensures (n as real).Floor == n && (n as real + 0.5).Floor == n
  {}

  lemma RoundedIs(units: real)
    ensures (units + 0.5).Floor as real == units <==> units == units.Floor as real
  {
    var floor, rounded := units.Floor, (units + 0.5).Floor;
    if units == floor as real {
      FloorOf(floor);
    } else if units == rounded as real {
      FloorOf(rounded);
    }
  }

  /** The column c of the slice keeps its numbers as doubles. */
  predicate KeptAsDoubles(data: seq<byte>, count: nat, kinds: seq<ColumnKind>, c: nat)
    requires c < |kinds|
  {
    var start := ColumnStart(data, count, kinds, c);
    kinds[c] != Right && start < |data| && data[start] % 8 == 4
  }

  lemma WholeColumn(cells: seq<Cell>, kind: ColumnKind)
    requires kind != Right && NumberColumn(cells)
    ensures ExactColumn(cells, kind) <==> forall i :: 0 <= i < |cells| ==> IsWhole(cells[i], kind)
    ensures ExactColumn(cells, kind) ==> forall i :: 0 <= i < |cells| ==> UnitsOf(cells, kind)[i] as real == InUnits(cells[i], kind)
  {
    hide ExactCell, IsWhole, UnitsOfCell, InUnits;
    forall i | 0 <= i < |cells|
      ensures ExactCell(cells[i], kind) <==> IsWhole(cells[i], kind)
      ensures ExactCell(cells[i], kind) ==> UnitsOfCell(cells[i], kind) as real == InUnits(cells[i], kind)
    {
      assert IsNumberOrNull(cells[i]);
      WholeIsExact(cells[i], kind);
    }
  }

  /** What the encoder wrote for a column of numbers. */
  lemma NumbersLie(f64: DoubleCodec, data: seq<byte>, rows: seq<Row>, kinds: seq<ColumnKind>, c: nat)
    requires f64.Valid() && Rectangular(rows, |kinds|) && c < |kinds| && kinds[c] != Right && ColumnLies(f64, data, rows, kinds, c)
    ensures var cells, start := ColumnOf(rows, |kinds|, c), ColumnStart(data, |rows|, kinds, c);
            && NumberColumn(cells)
            && start < |data| && (KeptAsDoubles(data, |rows|, kinds, c) <==> !ExactColumn(cells, kinds[c]))
            && (ExactColumn(cells, kinds[c]) ==> data[start] % 8 <= 3)
  {
    hide ColumnOf, PreviousOf, ColumnStart, LiesAt, EncodeDoubles, ExactColumn, EncodeScaled, EncodeRaw, DecodeScaled, CellsAsRead, DecodeRaw, UnitsOf;
    var cells, start, previous := ColumnOf(rows, |kinds|, c), ColumnStart(data, |rows|, kinds, c), PreviousOf(rows, kinds, c);
    if ExactColumn(cells, kinds[c]) {
      ScaledReadBack(data, start, cells, kinds[c], previous);
    } else {
      RawReadBack(f64, data, start, cells);
    }
  }

  /** Of a packed slice, the columns with a number that is not whole in its unit, or beyond 32 bits, keep their doubles; no other does. */
  lemma DoublesOnlyWhenNeeded(f64: DoubleCodec, rows: seq<Row>, kinds: seq<ColumnKind>, c: nat)
    requires f64.Valid() && Rectangular(rows, |kinds|) && c < |kinds| && kinds[c] != Right && PackedSlice(f64, rows, kinds).Ok?
    ensures KeptAsDoubles(PackedSlice(f64, rows, kinds).value, |rows|, kinds, c) <==> exists i :: 0 <= i < |rows| && !IsWhole(rows[i][c], kinds[c])
  {
    hide PackedSlice, ColumnLies, KeptAsDoubles, IsWhole, ColumnStart;
    var data, cells := PackedSlice(f64, rows, kinds).value, ColumnOf(rows, |kinds|, c);
    PackedLies(f64, rows, kinds, c);
    NumbersLie(f64, data, rows, kinds, c);
    WholeColumn(cells, kinds[c]);
    assert forall i :: 0 <= i < |rows| ==> cells[i] == rows[i][c];
  }

  /** The column before, as the encoder has it, is the one the format takes differences from. */
  lemma PreviousIsBefore(f64: DoubleCodec, rows: seq<Row>, kinds: seq<ColumnKind>, c: nat)
    requires f64.Valid() && Rectangular(rows, |kinds|) && c < |kinds| && PackedSlice(f64, rows, kinds).Ok?
    ensures AreUnits(UnitsBefore(PreviousOf(rows, kinds, c)), Before(PackedSlice(f64, rows, kinds).value, rows, kinds, c))
  {
    hide PackedSlice, ColumnLies, ColumnStart, ExactColumn, UnitsOf, InUnits;
    if c > 0 && kinds[c - 1] != Right {
      var data, cells := PackedSlice(f64, rows, kinds).value, ColumnOf(rows, |kinds|, c - 1);
      PackedLies(f64, rows, kinds, c - 1);
      NumbersLie(f64, data, rows, kinds, c - 1);
      WholeColumn(cells, kinds[c - 1]);
      assert forall i :: 0 <= i < |rows| ==> cells[i] == rows[i][c - 1];
    }
  }

  /** The number stored for contract i: in its unit, less the column before's where it is a difference. */
  function StoredNumber(data: seq<byte>, rows: seq<Row>, kinds: seq<ColumnKind>, c: nat, i: nat): real
    requires Rectangular(rows, |kinds|) && c < |kinds| && i < |rows| && ColumnStart(data, |rows|, kinds, c) < |data|
  {
    var before := Before(data, rows, kinds, c);
    InUnits(rows[i][c], kinds[c]) - if Over(data, ColumnStart(data, |rows|, kinds, c)) && before.Some? then before.value[i] else 0.0
  }

  /** A column of whole numbers, and what its header says. */
  ghost predicate IsChosen(data: seq<byte>, rows: seq<Row>, kinds: seq<ColumnKind>, c: nat)
    requires Rectangular(rows, |kinds|) && c < |kinds|
  {
    var start, kind := ColumnStart(data, |rows|, kinds, c), kinds[c];
    && start + 12 <= |data|
    && var width, base, step := data[start] % 8, Signed32(data, start + 4), Signed32(data, start + 8);
    // The flags: a null bitmap when a number is missing, a difference when the column before has every number this one has.
    && (data[start] / 8 % 2 == 1 <==> exists i :: 0 <= i < |rows| && rows[i][c].Null?)
    && (Over(data, start) <==> kind == CentsOverPrevious && Before(data, rows, kinds, c).Some? && forall i :: 0 <= i < |rows| ==> rows[i][c].Null? || !rows[i][c - 1].Null?)
    && IsLowest(data, rows, kinds, c, base) && IsStep(data, rows, kinds, c, base, step) && IsNarrowest(data, rows, kinds, c, base, step, width)
  }

  /** The lowest number stored, 0 when none is. */
  ghost predicate IsLowest(data: seq<byte>, rows: seq<Row>, kinds: seq<ColumnKind>, c: nat, base: int)
    requires Rectangular(rows, |kinds|) && c < |kinds| && ColumnStart(data, |rows|, kinds, c) < |data|
  {
    && (forall i :: 0 <= i < |rows| && !rows[i][c].Null? ==> base as real <= StoredNumber(data, rows, kinds, c, i))
    && ((forall i :: 0 <= i < |rows| ==> rows[i][c].Null?) ==> base == 0)
    && ((exists i :: 0 <= i < |rows| && !rows[i][c].Null?) ==> exists i :: 0 <= i < |rows| && !rows[i][c].Null? && base as real == StoredNumber(data, rows, kinds, c, i))
  }

  /** 1, and for strikes the greatest number all are multiples of above the lowest. */
  ghost predicate IsStep(data: seq<byte>, rows: seq<Row>, kinds: seq<ColumnKind>, c: nat, base: int, step: int)
    requires Rectangular(rows, |kinds|) && c < |kinds| && ColumnStart(data, |rows|, kinds, c) < |data|
  {
    var varies := exists i :: 0 <= i < |rows| && !rows[i][c].Null? && StoredNumber(data, rows, kinds, c, i) != base as real;
    && step >= 1
    && (kinds[c] != Strike || !varies ==> step == 1)
    && (kinds[c] == Strike && varies ==> forall d: int :: 0 < d && StepsOf(data, rows, kinds, c, base, d) ==> d <= step)
  }

  ghost predicate StepsOf(data: seq<byte>, rows: seq<Row>, kinds: seq<ColumnKind>, c: nat, base: int, d: int)
    requires Rectangular(rows, |kinds|) && c < |kinds| && ColumnStart(data, |rows|, kinds, c) < |data|
  {
    forall i :: 0 <= i < |rows| && !rows[i][c].Null? ==> exists k: int :: StoredNumber(data, rows, kinds, c, i) == (base + Product(k, d)) as real
  }

  /** Some number needs the width: it is above the base, by more than 255 steps, by more than 65,535. */
  ghost predicate IsNarrowest(data: seq<byte>, rows: seq<Row>, kinds: seq<ColumnKind>, c: nat, base: int, step: int, width: nat)
    requires Rectangular(rows, |kinds|) && c < |kinds| && ColumnStart(data, |rows|, kinds, c) < |data|
  {
    var above := [0, 0, 255, 65535];
    width <= 3 && (width > 0 ==> exists i :: 0 <= i < |rows| && !rows[i][c].Null? && StoredNumber(data, rows, kinds, c, i) > (base + above[width] * step) as real)
  }

  /** The header of a column of whole numbers, as the encoder computed it. */
  lemma HeaderIs(f64: DoubleCodec, data: seq<byte>, rows: seq<Row>, kinds: seq<ColumnKind>, c: nat)
    requires f64.Valid() && Rectangular(rows, |kinds|) && c < |kinds| && kinds[c] != Right && ColumnLies(f64, data, rows, kinds, c)
    requires ExactColumn(ColumnOf(rows, |kinds|, c), kinds[c])
    ensures var cells, kind, previous, start := ColumnOf(rows, |kinds|, c), kinds[c], PreviousOf(rows, kinds, c), ColumnStart(data, |rows|, kinds, c);
            var layout := ColumnLayout(cells, kind, previous);
            && start + 12 <= |data| && data[start] == Descriptor(layout.widthCode, HasNulls(cells), OverPrevious(cells, kind, previous))
            && Signed32(data, start + 4) == layout.minimum && Signed32(data, start + 8) == layout.step
  {
    hide ColumnOf, PreviousOf, ColumnStart, LiesAt, ExactColumn, UnitsOf, StoredOf, LayoutOf, CodesOf, PresentOf, ScaledBytes, LayoutFits, HasNulls, OverPrevious, UnpackField, Signed32, Descriptor, HeaderBytes, NullBytes, ValueBytes;
    var cells, kind, previous, start := ColumnOf(rows, |kinds|, c), kinds[c], PreviousOf(rows, kinds, c), ColumnStart(data, |rows|, kinds, c);
    var layout, codes := ColumnLayout(cells, kind, previous), ColumnCodes(cells, kind, previous);
    ScaledParts(data, start, cells, layout, codes, OverPrevious(cells, kind, previous));
    LayoutFitsFields(layout, codes);
    HeaderReadAt(data, start, layout, HasNulls(cells), OverPrevious(cells, kind, previous));
    FieldAt(data, start + 4, I32);
    FieldAt(data, start + 8, I32);
  }

  lemma LayoutFitsFields(layout: Layout, codes: seq<int>)
    requires layout.widthCode <= 3 && LayoutFits(layout, codes)
    ensures Fits(I32, layout.minimum) && Fits(I32, layout.step)
  {}

  /** The integers the encoder stored are the numbers of the format. */
  predicate Stores(data: seq<byte>, rows: seq<Row>, kinds: seq<ColumnKind>, c: nat, stored: seq<int>)
    requires Rectangular(rows, |kinds|) && c < |kinds|
  {
    && ColumnStart(data, |rows|, kinds, c) < |data| && |stored| == |rows|
    && forall i :: 0 <= i < |rows| && !rows[i][c].Null? ==> stored[i] as real == StoredNumber(data, rows, kinds, c, i)
  }

  lemma FlagsAre(f64: DoubleCodec, rows: seq<Row>, kinds: seq<ColumnKind>, c: nat)
    requires f64.Valid() && Rectangular(rows, |kinds|) && c < |kinds| && kinds[c] != Right && PackedSlice(f64, rows, kinds).Ok?
    requires ExactColumn(ColumnOf(rows, |kinds|, c), kinds[c])
    ensures var data := PackedSlice(f64, rows, kinds).value;
            var start, before := ColumnStart(data, |rows|, kinds, c), Before(data, rows, kinds, c);
            && start < |data|
            && (data[start] / 8 % 2 == 1 <==> exists i :: 0 <= i < |rows| && rows[i][c].Null?)
            && (Over(data, start) <==> OverPrevious(ColumnOf(rows, |kinds|, c), kinds[c], PreviousOf(rows, kinds, c)))
            && (Over(data, start) <==> kinds[c] == CentsOverPrevious && before.Some? && forall i :: 0 <= i < |rows| ==> rows[i][c].Null? || !rows[i][c - 1].Null?)
  {
    hide PackedSlice, ColumnLies, ColumnStart, ExactColumn, ColumnLayout, Descriptor, UnitsOf, Before, Signed32;
    var data, cells, previous := PackedSlice(f64, rows, kinds).value, ColumnOf(rows, |kinds|, c), PreviousOf(rows, kinds, c);
    PackedLies(f64, rows, kinds, c);
    HeaderIs(f64, data, rows, kinds, c);
    DescriptorReadBack(ColumnLayout(cells, kinds[c], previous).widthCode, HasNulls(cells), OverPrevious(cells, kinds[c], previous));
    PreviousIsBefore(f64, rows, kinds, c);
    assert forall i :: 0 <= i < |rows| ==> cells[i] == rows[i][c];
    assert previous.Some? ==> forall i :: 0 <= i < |rows| ==> previous.value.cells[i] == rows[i][c - 1];
  }

  lemma StoredAre(f64: DoubleCodec, rows: seq<Row>, kinds: seq<ColumnKind>, c: nat)
    requires f64.Valid() && Rectangular(rows, |kinds|) && c < |kinds| && kinds[c] != Right && PackedSlice(f64, rows, kinds).Ok?
    requires ExactColumn(ColumnOf(rows, |kinds|, c), kinds[c])
    ensures Stores(PackedSlice(f64, rows, kinds).value, rows, kinds, c, StoredOf(ColumnOf(rows, |kinds|, c), kinds[c], PreviousOf(rows, kinds, c)))
  {
    hide PackedSlice, ColumnLies, ColumnStart, ExactColumn, InUnits, UnitsOf, Before, Over, OverPrevious, PreviousOf;
    var data, cells, previous := PackedSlice(f64, rows, kinds).value, ColumnOf(rows, |kinds|, c), PreviousOf(rows, kinds, c);
    FlagsAre(f64, rows, kinds, c);
    PreviousIsBefore(f64, rows, kinds, c);
    PackedLies(f64, rows, kinds, c);
    NumbersLie(f64, data, rows, kinds, c);
    WholeColumn(cells, kinds[c]);
    assert forall i :: 0 <= i < |rows| ==> cells[i] == rows[i][c];
    OverPreviousNeedsIt(cells, kinds[c], previous);
  }

  lemma OverPreviousNeedsIt(cells: seq<Cell>, kind: ColumnKind, previous: Option<PreviousColumn>)
    requires PreviousFits(previous, |cells|)
    ensures OverPrevious(cells, kind, previous) ==> previous.Some?
  {}

  lemma LowestIs(data: seq<byte>, rows: seq<Row>, kinds: seq<ColumnKind>, c: nat, stored: seq<int>)
    requires Rectangular(rows, |kinds|) && c < |kinds| && Stores(data, rows, kinds, c, stored)
    ensures IsLowest(data, rows, kinds, c, LayoutOf(kinds[c], PresentOf(ColumnOf(rows, |kinds|, c), stored)).minimum)
  {
    hide StoredNumber, ColumnStart, StepOf, PresentOf, MinOf, MaxOf;
    var cells := ColumnOf(rows, |kinds|, c);
    var present := PresentOf(cells, stored);
    forall i | 0 <= i < |rows| && !rows[i][c].Null?
      ensures stored[i] in present
    {
      PresentHas(cells, stored, i);
    }
    if present != [] {
      var i := PresentIndex(cells, stored, MinOf(present));
      assert !rows[i][c].Null? && stored[i] as real == StoredNumber(data, rows, kinds, c, i);
    }
  }

  lemma EachIsStored(data: seq<byte>, rows: seq<Row>, kinds: seq<ColumnKind>, c: nat, stored: seq<int>, base: int, d: int, n: int)
    requires Rectangular(rows, |kinds|) && c < |kinds| && Stores(data, rows, kinds, c, stored) && StepsOf(data, rows, kinds, c, base, d)
    requires n in PresentOf(ColumnOf(rows, |kinds|, c), stored)
    ensures Divides(d, n - base)
  {
    hide StoredNumber, ColumnStart, PresentOf, Product;
    var i := PresentIndex(ColumnOf(rows, |kinds|, c), stored, n);
    assert !rows[i][c].Null?;
    var k: int :| StoredNumber(data, rows, kinds, c, i) == (base + Product(k, d)) as real;
  }

  lemma StepIs(data: seq<byte>, rows: seq<Row>, kinds: seq<ColumnKind>, c: nat, stored: seq<int>)
    requires Rectangular(rows, |kinds|) && c < |kinds| && Stores(data, rows, kinds, c, stored)
    ensures var layout := LayoutOf(kinds[c], PresentOf(ColumnOf(rows, |kinds|, c), stored)); IsStep(data, rows, kinds, c, layout.minimum, layout.step)
  {
    hide StoredNumber, ColumnStart, StepOf, PresentOf, MinOf, MaxOf, StepsOf, Product;
    var cells := ColumnOf(rows, |kinds|, c);
    var present := PresentOf(cells, stored);
    if present != [] {
      var base := MinOf(present);
      StepOfOthers(kinds[c], present);
      if i :| 0 <= i < |rows| && !rows[i][c].Null? && StoredNumber(data, rows, kinds, c, i) != base as real {
        PresentHas(cells, stored, i);
        forall d: int | kinds[c] == Strike && 0 < d && StepsOf(data, rows, kinds, c, base, d)
          ensures d <= StepOf(Strike, present)
        {
          forall n | n in present
            ensures Divides(d, n - base)
          {
            EachIsStored(data, rows, kinds, c, stored, base, d, n);
          }
          StrikeStepIsGreatest(present, d);
        }
      } else {
        var j := PresentIndex(cells, stored, MaxOf(present));
        assert !rows[j][c].Null? && stored[j] as real == StoredNumber(data, rows, kinds, c, j);
        StepOfEqualNumbers(kinds[c], present);
      }
    } else {
      forall i | 0 <= i < |rows|
        ensures rows[i][c].Null?
      {
        if !rows[i][c].Null? {
          PresentHas(cells, stored, i);
        }
      }
    }
  }

  lemma StepOfOthers(kind: ColumnKind, present: seq<int>)
    requires present != []
    ensures kind != Strike ==> StepOf(kind, present) == 1
  {}

  lemma MoreThan(n: int, d: int, bound: nat)
    requires d > 0 && Quotient(n, d) > bound
    ensures n > bound * d
  {
    assert n == Quotient(n, d) * d + n % d;
    hide Quotient;
    NotNegative(Quotient(n, d) - bound - 1, d);
    assert Quotient(n, d) * d == (Quotient(n, d) - bound - 1) * d + bound * d + d;
  }

  lemma NotNegative(a: int, b: int)
    requires a >= 0 && b >= 0
    ensures a * b >= 0
  {}

  lemma NarrowestIs(data: seq<byte>, rows: seq<Row>, kinds: seq<ColumnKind>, c: nat, stored: seq<int>)
    requires Rectangular(rows, |kinds|) && c < |kinds| && Stores(data, rows, kinds, c, stored)
    ensures var layout := LayoutOf(kinds[c], PresentOf(ColumnOf(rows, |kinds|, c), stored)); IsNarrowest(data, rows, kinds, c, layout.minimum, layout.step, layout.widthCode)
  {
    hide StoredNumber, ColumnStart, StepOf, PresentOf, MinOf, MaxOf, Quotient, WidthCode;
    var cells := ColumnOf(rows, |kinds|, c);
    var present := PresentOf(cells, stored);
    var layout := LayoutOf(kinds[c], present);
    if present != [] && layout.widthCode > 0 {
      var j := PresentIndex(cells, stored, MaxOf(present));
      assert !rows[j][c].Null? && stored[j] as real == StoredNumber(data, rows, kinds, c, j);
      WidthIsNarrowest(kinds[c], present);
      MoreThan(MaxOf(present) - layout.minimum, layout.step, [0, 0, 255, 65535][layout.widthCode]);
    }
  }

  /** Every column kept in whole units has the lowest number as its base, the greatest step, the narrowest width and the flags it needs. */
  lemma PackedChooses(f64: DoubleCodec, rows: seq<Row>, kinds: seq<ColumnKind>, c: nat)
    requires f64.Valid() && Rectangular(rows, |kinds|) && c < |kinds| && kinds[c] != Right && PackedSlice(f64, rows, kinds).Ok?
    requires !KeptAsDoubles(PackedSlice(f64, rows, kinds).value, |rows|, kinds, c)
    ensures IsChosen(PackedSlice(f64, rows, kinds).value, rows, kinds, c)
  {
    hide PackedSlice, ColumnLies, ColumnStart, ExactColumn, Before, Over, OverPrevious, PreviousOf, LayoutOf, Descriptor, StoredOf, PresentOf, Stores, KeptAsDoubles, Signed32, IsLowest, IsStep, IsNarrowest;
    var data, cells, previous := PackedSlice(f64, rows, kinds).value, ColumnOf(rows, |kinds|, c), PreviousOf(rows, kinds, c);
    PackedLies(f64, rows, kinds, c);
    NumbersLie(f64, data, rows, kinds, c);
    HeaderIs(f64, data, rows, kinds, c);
    DescriptorReadBack(ColumnLayout(cells, kinds[c], previous).widthCode, HasNulls(cells), OverPrevious(cells, kinds[c], previous));
    FlagsAre(f64, rows, kinds, c);
    StoredAre(f64, rows, kinds, c);
    LowestIs(data, rows, kinds, c, StoredOf(cells, kinds[c], previous));
    StepIs(data, rows, kinds, c, StoredOf(cells, kinds[c], previous));
    NarrowestIs(data, rows, kinds, c, StoredOf(cells, kinds[c], previous));
  }
}
