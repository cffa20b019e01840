/** Which slices pack_slice can write: it raises for every other one. */
module SlicePackable {
  import opened Wrappers
  import opened Bytes
  import opened GreatestCommonDivisor
  import opened SliceCodec
  import opened SliceRoundTrip

  /** The column a difference in column `c` would be taken from, read off the rows alone. */
  function PreviousOf(rows: seq<Row>, kinds: seq<ColumnKind>, c: nat): (previous: Option<PreviousColumn>)
    requires Rectangular(rows, |kinds|) && c <= |kinds|
    ensures PreviousFits(previous, |rows|)
  {
    if c == 0 || kinds[c - 1] == Right then None else
    var cells := ColumnOf(rows, |kinds|, c - 1);
    if NumberColumn(cells) && ExactColumn(cells, kinds[c - 1]) then Some(PreviousColumn(cells, UnitsOf(cells, kinds[c - 1]))) else None
  }

  /** The lowest stored number, the step and the largest code fit the 32-bit fields they are written to. */
  predicate RangeFits(kind: ColumnKind, present: seq<int>) {
    present != [] ==>
      && Fits(I32, MinOf(present))
      && StepOf(kind, present) <= INT32_MAX
      && Quotient(MaxOf(present) - MinOf(present), StepOf(kind, present)) <= INT32_MAX
  }

  /** Every number kept as a double is not too large for one. */
  predicate DoublesFit(f64: DoubleCodec, cells: seq<Cell>) {
    forall i :: 0 <= i < |cells| && cells[i].Number? ==> f64.encode(cells[i].value).Some?
  }

  predicate ColumnPacks(f64: DoubleCodec, cells: seq<Cell>, kind: ColumnKind, previous: Option<PreviousColumn>)
    requires PreviousFits(previous, |cells|)
  {
    if kind == Right then RightColumn(cells)
    else if !NumberColumn(cells) then false
    else if !ExactColumn(cells, kind) then DoublesFit(f64, cells)
    else RangeFits(kind, PresentOf(cells, StoredOf(cells, kind, previous)))
  }

  lemma CodeFits(kind: ColumnKind, present: seq<int>, n: int)
    requires n in present && RangeFits(kind, present) && LayoutOf(kind, present).widthCode > 0
    ensures Fits(CodeField(LayoutOf(kind, present).widthCode), Quotient(n - MinOf(present), StepOf(kind, present)))
  {
    hide StepOf, Quotient, Product, MinOf, MaxOf;
    CodeGivesStoredBack(kind, present, n);
    QuotientMonotone(n - MinOf(present), MaxOf(present) - MinOf(present), StepOf(kind, present));
  }

  lemma LayoutFitsWhenRangeDoes(cells: seq<Cell>, stored: seq<int>, kind: ColumnKind)
    requires |cells| == |stored| && RangeFits(kind, PresentOf(cells, stored))
    ensures var layout := LayoutOf(kind, PresentOf(cells, stored));
            LayoutFits(layout, CodesOf(cells, stored, layout))
  {
    hide StepOf, Quotient, PresentOf, MinOf, MaxOf;
    var present := PresentOf(cells, stored);
    var layout := LayoutOf(kind, present);
    var codes := CodesOf(cells, stored, layout);
    forall n | n in codes && layout.widthCode > 0
      ensures Fits(CodeField(layout.widthCode), n)
    {
      var i :| 0 <= i < |codes| && codes[i] == n;
      if !cells[i].Null? {
        PresentHas(cells, stored, i);
        CodeFits(kind, present, stored[i]);
      }
    }
  }

  lemma WidestCodeBounds(code: nat)
    requires WidthCode(code) > 0 ==> Fits(CodeField(WidthCode(code)), code)
    ensures code <= INT32_MAX
  {}

  lemma RangeFitsWhenLayoutDoes(cells: seq<Cell>, stored: seq<int>, kind: ColumnKind)
    requires |cells| == |stored| && PresentOf(cells, stored) != []
    requires var layout := LayoutOf(kind, PresentOf(cells, stored));
             LayoutFits(layout, CodesOf(cells, stored, layout))
    ensures RangeFits(kind, PresentOf(cells, stored))
  {
    hide StepOf, Quotient, PresentOf, MinOf, MaxOf, WidthCode, CodeField;
    var present := PresentOf(cells, stored);
    var code := Quotient(MaxOf(present) - MinOf(present), StepOf(kind, present));
    QuotientMonotone(0, MaxOf(present) - MinOf(present), StepOf(kind, present));
    var i := PresentIndex(cells, stored, MaxOf(present));
    var codes := CodesOf(cells, stored, LayoutOf(kind, present));
    assert codes[i] == code;
    WidestCodeBounds(code);
  }

  lemma LayoutFitsExactly(cells: seq<Cell>, stored: seq<int>, kind: ColumnKind)
    requires |cells| == |stored|
    ensures var layout := LayoutOf(kind, PresentOf(cells, stored));
            LayoutFits(layout, CodesOf(cells, stored, layout)) <==> RangeFits(kind, PresentOf(cells, stored))
  {
    hide LayoutFits, RangeFits, LayoutOf, CodesOf, PresentOf;
    var present := PresentOf(cells, stored);
    var layout := LayoutOf(kind, present);
    if RangeFits(kind, present) {
      LayoutFitsWhenRangeDoes(cells, stored, kind);
    } else if LayoutFits(layout, CodesOf(cells, stored, layout)) {
      EmptyRangeFits(kind, present);
      RangeFitsWhenLayoutDoes(cells, stored, kind);
    }
  }

  lemma EmptyRangeFits(kind: ColumnKind, present: seq<int>)
    ensures present == [] ==> RangeFits(kind, present)
  {}

  lemma {:induction false} DoublesFitExactly(f64: DoubleCodec, cells: seq<Cell>)
    requires NumberColumn(cells)
    ensures EncodeDoubles(f64, cells).Ok? <==> DoublesFit(f64, cells)
  {
    if cells != [] {
      var last := |cells| - 1;
      DoublesFitExactly(f64, cells[..last]);
      assert forall i :: 0 <= i < last ==> cells[..last][i] == cells[i];
    }
  }

  lemma ColumnPacksExactly(f64: DoubleCodec, cells: seq<Cell>, kind: ColumnKind, size: nat, previous: Option<PreviousColumn>)
    requires PreviousFits(previous, |cells|)
    ensures EncodeColumn(f64, cells, kind, size, previous).Ok? <==> ColumnPacks(f64, cells, kind, previous)
  {
    hide LayoutOf, CodesOf, StoredOf, PresentOf, LayoutFits, RangeFits, EncodeDoubles, DoublesFit, ExactColumn, ScaledBytes;
    if kind != Right && NumberColumn(cells) {
      DoublesFitExactly(f64, cells);
      LayoutFitsExactly(cells, StoredOf(cells, kind, previous), kind);
    }
  }

  lemma ColumnLeavesPrevious(f64: DoubleCodec, rows: seq<Row>, kinds: seq<ColumnKind>, c: nat, size: nat)
    requires Rectangular(rows, |kinds|) && c < |kinds|
    requires EncodeColumn(f64, ColumnOf(rows, |kinds|, c), kinds[c], size, PreviousOf(rows, kinds, c)).Ok?
    ensures EncodeColumn(f64, ColumnOf(rows, |kinds|, c), kinds[c], size, PreviousOf(rows, kinds, c)).value.previous == PreviousOf(rows, kinds, c + 1)
  {
    hide ColumnOf, LayoutOf, StoredOf, PresentOf, LayoutFits, EncodeDoubles, ExactColumn, ScaledBytes, UnitsOf;
  }

  lemma {:induction false} ColumnsPackExactly(f64: DoubleCodec, rows: seq<Row>, kinds: seq<ColumnKind>, column: nat, size: nat)
    requires Rectangular(rows, |kinds|) && column <= |kinds|
    ensures EncodeColumns(f64, rows, kinds, column, size, PreviousOf(rows, kinds, column)).Ok?
            <==> forall c :: column <= c < |kinds| ==> ColumnPacks(f64, ColumnOf(rows, |kinds|, c), kinds[c], PreviousOf(rows, kinds, c))
    decreases |kinds| - column
  {
    hide EncodeColumn, ColumnPacks, PreviousOf, ColumnOf;
    if column < |kinds| {
      var encoded := EncodeColumn(f64, ColumnOf(rows, |kinds|, column), kinds[column], size, PreviousOf(rows, kinds, column));
      ColumnPacksExactly(f64, ColumnOf(rows, |kinds|, column), kinds[column], size, PreviousOf(rows, kinds, column));
      if encoded.Ok? {
        ColumnLeavesPrevious(f64, rows, kinds, column, size);
        ColumnsPackExactly(f64, rows, kinds, column + 1, size + |encoded.value.bytes|);
      }
    }
  }

  /** pack_slice writes a slice exactly when each column, looked at with the one before it alone, can be written. */
  lemma PacksExactly(f64: DoubleCodec, rows: seq<Row>, kinds: seq<ColumnKind>)
    requires Rectangular(rows, |kinds|)
    ensures PackedSlice(f64, rows, kinds).Ok?
            <==> Fits(U32, |rows|) && forall c :: 0 <= c < |kinds| ==> ColumnPacks(f64, ColumnOf(rows, |kinds|, c), kinds[c], PreviousOf(rows, kinds, c))
  {
    hide EncodeColumns, ColumnPacks;
    ColumnsPackExactly(f64, rows, kinds, 0, 4);
  }

  // ---------------------------------------------------------------------------------------
  // Every slice of ordinary option data packs

  /** A number from 0 up to 2^30 of its units. */
  predicate OrdinaryCell(cell: Cell, kind: ColumnKind) {
    cell.Number? ==> 0 <= UnitsOfCell(cell, kind) < 0x4000_0000
  }

  predicate OrdinaryColumn(cells: seq<Cell>, kind: ColumnKind) {
    if kind == Right then RightColumn(cells) else
    NumberColumn(cells) && forall i :: 0 <= i < |cells| ==> OrdinaryCell(cells[i], kind)
  }

  lemma SmallRangeFits(kind: ColumnKind, present: seq<int>)
    requires forall n :: n in present ==> -0x4000_0000 < n < 0x4000_0000
    ensures RangeFits(kind, present)
  {
    if present != [] {
      var minimum, maximum := MinOf(present), MaxOf(present);
      var step := StepOf(kind, present);
      StepDividesEach(kind, present, maximum);
      var k: int :| Product(k, step) == maximum - minimum;
      DividedExactly(step, maximum - minimum);
      QuotientMonotone(0, maximum - minimum, step);
      QuotientAtMost(maximum - minimum, step);
      if maximum == minimum {
        StepOfEqualNumbers(kind, present);
      } else if k <= 0 {
        NotPositive(k, step);
      } else {
        AtLeastOneMore(k, step);
      }
    }
  }

  lemma QuotientAtMost(n: nat, d: int)
    requires d > 0
    ensures Quotient(n, d) <= n
  {
    var q := n / d;
    assert q >= 1 ==> q * d >= q;
  }

  lemma StepOfEqualNumbers(kind: ColumnKind, present: seq<int>)
    requires present != [] && MaxOf(present) == MinOf(present)
    ensures StepOf(kind, present) == 1
  {
    forall i | 0 <= i < |present|
      ensures present[i] == MinOf(present)
    {
      assert present[i] in present;
    }
  }

  lemma OrdinaryStored(cells: seq<Cell>, kind: ColumnKind, previousKind: ColumnKind, previousCells: seq<Cell>, previous: Option<PreviousColumn>, n: int)
    requires kind != Right && OrdinaryColumn(cells, kind) && PreviousFits(previous, |cells|)
    requires previous.Some? ==>
      previousKind != Right && OrdinaryColumn(previousCells, previousKind) && previous == Some(PreviousColumn(previousCells, UnitsOf(previousCells, previousKind)))
    requires n in PresentOf(cells, StoredOf(cells, kind, previous))
    ensures -0x4000_0000 < n < 0x4000_0000
  {
    var i := PresentIndex(cells, StoredOf(cells, kind, previous), n);
    assert OrdinaryCell(cells[i], kind) && IsNumberOrNull(cells[i]);
    if previous.Some? {
      assert OrdinaryCell(previousCells[i], previousKind) && IsNumberOrNull(previousCells[i]);
    }
  }

  /** Below 2^30 units and never negative, whatever is missing and whatever the mix of columns: the slice packs. */
  lemma OrdinarySlicePacks(f64: DoubleCodec, rows: seq<Row>, kinds: seq<ColumnKind>)
    requires Rectangular(rows, |kinds|) && Fits(U32, |rows|)
    requires forall v :: f64.encode(v).Some?
    requires forall c :: 0 <= c < |kinds| ==> OrdinaryColumn(ColumnOf(rows, |kinds|, c), kinds[c])
    ensures PackedSlice(f64, rows, kinds).Ok?
  {
    forall c | 0 <= c < |kinds|
      ensures ColumnPacks(f64, ColumnOf(rows, |kinds|, c), kinds[c], PreviousOf(rows, kinds, c))
    {
      OrdinaryColumnPacks(f64, rows, kinds, c);
    }
    PacksExactly(f64, rows, kinds);
  }

  lemma OrdinaryColumnPacks(f64: DoubleCodec, rows: seq<Row>, kinds: seq<ColumnKind>, c: nat)
    requires Rectangular(rows, |kinds|) && c < |kinds|
    requires forall v :: f64.encode(v).Some?
    requires forall c :: 0 <= c < |kinds| ==> OrdinaryColumn(ColumnOf(rows, |kinds|, c), kinds[c])
    ensures ColumnPacks(f64, ColumnOf(rows, |kinds|, c), kinds[c], PreviousOf(rows, kinds, c))
  {
    hide StoredOf, PresentOf, RangeFits, ColumnOf, ExactColumn;
    var cells, previous := ColumnOf(rows, |kinds|, c), PreviousOf(rows, kinds, c);
    assert OrdinaryColumn(cells, kinds[c]);
    if kinds[c] != Right {
      var before := if c == 0 then c else c - 1;
      assert OrdinaryColumn(ColumnOf(rows, |kinds|, before), kinds[before]);
      var present := PresentOf(cells, StoredOf(cells, kinds[c], previous));
      forall n | n in present
        ensures -0x4000_0000 < n < 0x4000_0000
      {
        OrdinaryStored(cells, kinds[c], kinds[before], ColumnOf(rows, |kinds|, before), previous, n);
      }
      SmallRangeFits(kinds[c], present);
    }
  }

  // ---------------------------------------------------------------------------------------
  // A slice that cannot be packed

  lemma WideRangeDoesNotFit(kind: ColumnKind, present: seq<int>, low: int, high: int)
    requires kind != Strike && low in present && high in present && high - low > INT32_MAX
    ensures !RangeFits(kind, present)
  {
    assert StepOf(kind, present) == 1;
  }

  const CROSSED_QUOTES: seq<Row> := [[Number(0.0), Number(21474836.47)], [Number(21474836.47), Number(0.0)]]

  lemma CrossedQuotesColumns()
    ensures Rectangular(CROSSED_QUOTES, 2)
    ensures ColumnOf(CROSSED_QUOTES, 2, 0) == [Number(0.0), Number(21474836.47)]
    ensures ColumnOf(CROSSED_QUOTES, 2, 1) == [Number(21474836.47), Number(0.0)]
  {}

  lemma CrossedQuotesUnits(cells: seq<Cell>, kind: ColumnKind, low: nat)
    requires kind == Cents || kind == CentsOverPrevious
    requires |cells| == 2 && low < 2 && cells[low] == Number(0.0) && cells[1 - low] == Number(21474836.47)
    ensures NumberColumn(cells) && ExactColumn(cells, kind) && UnitsOf(cells, kind)[low] == 0 && UnitsOf(cells, kind)[1 - low] == 2147483647
  {
    assert UnitsOfCell(Number(21474836.47), kind) == 2147483647;
    assert UnitsOfCell(Number(0.0), kind) == 0;
  }

  /** Numbers that all fit their unit in 32 bits, and still struct.error: their differences span more than 32 bits. */
  lemma CrossedQuotesDoNotPack(f64: DoubleCodec)
    ensures Rectangular(CROSSED_QUOTES, 2)
    ensures forall c :: 0 <= c < 2 ==> ExactColumn(ColumnOf(CROSSED_QUOTES, 2, c), [Cents, CentsOverPrevious][c])
    ensures PackedSlice(f64, CROSSED_QUOTES, [Cents, CentsOverPrevious]).Err?
  {
    hide RangeFits, PresentOf, ColumnOf, UnitsOf, ExactColumn, NumberColumn;
    var kinds := [Cents, CentsOverPrevious];
    CrossedQuotesColumns();
    var bids, asks := ColumnOf(CROSSED_QUOTES, 2, 0), ColumnOf(CROSSED_QUOTES, 2, 1);
    CrossedQuotesUnits(bids, Cents, 0);
    CrossedQuotesUnits(asks, CentsOverPrevious, 1);
    var previous := PreviousOf(CROSSED_QUOTES, kinds, 1);
    var stored := StoredOf(asks, CentsOverPrevious, previous);
    assert stored[0] == 2147483647 && stored[1] == -2147483647;
    PresentHas(asks, stored, 0);
    PresentHas(asks, stored, 1);
    WideRangeDoesNotFit(CentsOverPrevious, PresentOf(asks, stored), stored[1], stored[0]);
    assert !ColumnPacks(f64, asks, CentsOverPrevious, previous);
    PacksExactly(f64, CROSSED_QUOTES, kinds);
  }
}
