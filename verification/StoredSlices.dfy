/** What the row of a slice table says of its slice (scripts/backtest/download_thetadata_symbol.py), table by table. */
module StoredSlices {
  import opened Bytes
  import opened SliceCodec
  import opened FlatPart
  import opened SliceTables
  import opened SliceLayout

  /** The rows with one right. */
  function RightsIn(rows: seq<Row>, right: string): nat {
    if rows == [] then 0 else
    var last := rows[|rows| - 1];
    RightsIn(rows[..|rows| - 1], right) + if |last| >= 2 && last[1] == Text(right) then 1 else 0
  }

  ghost predicate AreIn(f64: DoubleCodec, data: seq<byte>, rows: seq<Row>, kinds: seq<ColumnKind>)
    requires f64.Valid()
  {
    (forall i :: 0 <= i < |rows| ==> |rows[i]| == |kinds|) && HoldsSlice(f64, data, rows, kinds)
  }

  lemma {:induction false} CallsAreRights(rows: seq<Row>)
    requires forall i :: 0 <= i < |rows| ==> ContractRow(rows[i])
    ensures CallsIn(rows) == RightsIn(rows, "C") && |rows| - CallsIn(rows) == RightsIn(rows, "P")
  {
    if rows != [] {
      var last := |rows| - 1;
      CallsAreRights(rows[..last]);
      assert ContractRow(rows[last]);
    }
  }

  /**
   A table's slice holds its rows in the bytes of its own columns, and says how many are Calls and Puts;
   of 10:00 quotes it says whether any ask is above 0, of the end of day whether any volume is there.
   */
  lemma StoredSliceSays(f64: DoubleCodec, part: Part, slice: StoredSlice)
    requires f64.Valid() && WellKept(f64, part, slice)
    ensures var rows := RowsIn(f64, part, slice);
            && slice.callCount == RightsIn(rows, "C") && slice.putCount == RightsIn(rows, "P")
            && (part == Quotes ==>
                  && AreIn(f64, slice.data, rows, [Strike, Right, Cents, CentsOverPrevious, Count, Count, Count])
                  && (slice.flag <==> exists i :: 0 <= i < |rows| && rows[i][3].Number? && rows[i][3].value > 0.0))
            && (part == EndOfDay ==>
                  && AreIn(f64, slice.data, rows, [Strike, Right, Cents, Count, Cents, CentsOverPrevious])
                  && (slice.flag <==> exists i :: 0 <= i < |rows| && rows[i][3] != Null))
            && (part == OpenInterest ==> AreIn(f64, slice.data, rows, [Strike, Right, Count]) && !slice.flag)
            && (part == IntradayQuotes ==> AreIn(f64, slice.data, rows, [Strike, Right, Cents, CentsOverPrevious, Count, Count]) && !slice.flag)
  {
    hide HoldsSlice, UnpackedSlice, CallsIn, RightsIn, InContractOrder;
    var rows := RowsIn(f64, part, slice);
    CallsAreRights(rows);
    ReadsExactly(f64, slice.data, rows, ColumnsOf(part));
  }
}
