/** A part's rows as the downloader lists them, and as the slices' keys and rows. */
module PartRows {
  import opened Wrappers
  import opened SliceCodec
  import opened SliceKeys
  import opened FlatPart
  import opened SliceTables

  /** A row with its dates; only an intraday quote has a look, and none may have a quote time. */
  datatype ListedRow = ListedRow(day: int, look: Option<int>, expiry: int, values: Row)

  datatype RowError = IntradayQuoteTime

  /** slice_key_and_row: an intraday quote with a quote time of its own cannot be kept. */
  function SliceKeyAndRow(part: Part, row: ListedRow, hasQuoteTime: bool): Result<KeyedRow, RowError>
    requires row.look.Some? <==> part == IntradayQuotes
  {
    if part == IntradayQuotes && hasQuoteTime then Err(IntradayQuoteTime) else
    var look := match part
      case IntradayQuotes => row.look.value
      case Quotes => TEN_O_CLOCK_LOOK_MINUTE
      case _ => DAILY_SLICE_LOOK_MINUTE;
    Ok(KeyedRow(SliceKey(row.day, look, row.expiry - row.day), row.values))
  }

  /** part_row_of_slice_row */
  function PartRowOfSliceRow(part: Part, keyed: KeyedRow): ListedRow {
    var day := DayNumberOfKey(keyed.key);
    ListedRow(day, if part == IntradayQuotes then Some(LookMinuteOfKey(keyed.key)) else None, day + DaysToExpiryOfKey(keyed.key), keyed.row)
  }

  /** A daily row is at look 0 and a 10:00 quote at minute 600; the second undoes the first exactly for expirations from 0 to 65535 days away and looks within 16 bits. */
  lemma PartRowReadsBack(part: Part, row: ListedRow)
    requires row.look.Some? <==> part == IntradayQuotes
    ensures var keyed := SliceKeyAndRow(part, row, false);
            && keyed.Ok? && keyed.value.row == row.values
            && keyed.value.key == row.day * 4294967296 + (if row.look.Some? then row.look.value else if part == Quotes then 600 else 0) * 65536 + (row.expiry - row.day)
            && (PartRowOfSliceRow(part, keyed.value) == row <==>
                            0 <= row.expiry - row.day < 65536 && (row.look.Some? ==> 0 <= row.look.value < 65536))
  {
    var keyed := SliceKeyAndRow(part, row, false).value;
    var look := match part
      case IntradayQuotes => row.look.value
      case Quotes => TEN_O_CLOCK_LOOK_MINUTE
      case _ => DAILY_SLICE_LOOK_MINUTE;
    KeyFieldsReadBack(row.day, look, row.expiry - row.day);
  }

  /** The first undoes the second for every key of the part. */
  lemma SliceRowReadsBack(part: Part, keyed: KeyedRow)
    requires part == Quotes ==> LookMinuteOfKey(keyed.key) == TEN_O_CLOCK_LOOK_MINUTE
    requires part == EndOfDay || part == OpenInterest ==> LookMinuteOfKey(keyed.key) == DAILY_SLICE_LOOK_MINUTE
    ensures SliceKeyAndRow(part, PartRowOfSliceRow(part, keyed), false) == Ok(keyed)
  {
    KeyOfItsFields(keyed.key);
  }
}
