/**
 The four slice tables of a symbol file: one packed slice for each day, look and expiry. A table
 stands for a flat map of rows (FlatPart), and merging, reading, counting and deleting act on it.
 */
module SliceTables {
  import opened Wrappers
  import opened Bytes
  import opened SliceCodec
  import opened SliceRoundTrip
  import opened SliceKeys
  import opened FlatPart
  import opened SlicePacker

  datatype Part = Quotes | EndOfDay | OpenInterest | IntradayQuotes

  function ColumnsOf(part: Part): (kinds: seq<ColumnKind>)
    ensures |kinds| >= 3
  {
    match part
    case Quotes => [Strike, Right, Cents, CentsOverPrevious, Count, Count, Count]
    case IntradayQuotes => [Strike, Right, Cents, CentsOverPrevious, Count, Count]
    case EndOfDay => [Strike, Right, Cents, Count, Cents, CentsOverPrevious]
    case OpenInterest => [Strike, Right, Count]
  }

  /** The flag a slice keeps: an ask above 0 (10:00 quotes), a volume (end of day). */
  predicate Flagged(part: Part, row: Row)
    requires |row| == |ColumnsOf(part)|
  {
    match part
    case Quotes => row[3].Number? && row[3].value > 0.0
    case EndOfDay => row[3] != Null
    case _ => false
  }

  datatype StoredSlice = StoredSlice(callCount: nat, putCount: nat, flag: bool, data: seq<byte>)

  // ---------------------------------------------------------------------------------------
  // A slice's rows

  predicate Before(a: Contract, b: Contract) {
    a.strike < b.strike || (a.strike == b.strike && !a.put && b.put)
  }

  predicate PartRow(f64: DoubleCodec, part: Part, row: Row) {
    && |row| == |ColumnsOf(part)|
    && ContractRow(row)
    && forall c :: 0 <= c < |row| && row[c].Number? ==> f64.Holds(row[c].value)
  }

  predicate PartRows(f64: DoubleCodec, part: Part, rows: seq<Row>) {
    forall i :: 0 <= i < |rows| ==> PartRow(f64, part, rows[i])
  }

  predicate InContractOrder(rows: seq<Row>)
    requires forall i :: 0 <= i < |rows| ==> ContractRow(rows[i])
  {
    forall i, j :: 0 <= i < j < |rows| ==> Before(ContractOf(rows[i]), ContractOf(rows[j]))
  }

  function CallsIn(rows: seq<Row>): (calls: nat)
    requires forall i :: 0 <= i < |rows| ==> ContractRow(rows[i])
    ensures calls <= |rows|
  {
    if rows == [] then 0 else
    var last := |rows| - 1;
    CallsIn(rows[..last]) + if ContractOf(rows[last]).put then 0 else 1
  }

  /** The slice read back; empty when its bytes cannot be. */
  function RowsIn(f64: DoubleCodec, part: Part, slice: StoredSlice): seq<Row> {
    match UnpackedSlice(f64, slice.data, ColumnsOf(part))
    case Ok(rows) => rows
    case Err(_) => []
  }

  /** A slice as write_slice leaves it: never empty. */
  predicate WellKept(f64: DoubleCodec, part: Part, slice: StoredSlice) {
    var rows := RowsIn(f64, part, slice);
    && rows != []
    && PartRows(f64, part, rows)
    && InContractOrder(rows)
    && slice.callCount == CallsIn(rows)
    && slice.callCount + slice.putCount == |rows|
    && slice.flag == (exists i :: 0 <= i < |rows| && Flagged(part, rows[i]))
  }

  predicate OwnContracts(m: map<Contract, Row>) {
    forall c :: c in m ==> ContractRow(m[c]) && ContractOf(m[c]) == c
  }

  /** The rows as the dictionary merging starts from; the last row of a contract wins. */
  function ByContract(rows: seq<Row>): (m: map<Contract, Row>)
    requires forall i :: 0 <= i < |rows| ==> ContractRow(rows[i])
    ensures OwnContracts(m)
  {
    if rows == [] then map[] else
    var last := |rows| - 1;
    ByContract(rows[..last])[ContractOf(rows[last]) := rows[last]]
  }

  lemma {:induction false} ByContractIndex(rows: seq<Row>, contract: Contract) returns (i: nat)
    requires forall i :: 0 <= i < |rows| ==> ContractRow(rows[i])
    requires contract in ByContract(rows)
    ensures i < |rows| && rows[i] == ByContract(rows)[contract]
  {
    i := |rows| - 1;
    if ContractOf(rows[i]) != contract {
      i := ByContractIndex(rows[..i], contract);
    }
  }

  lemma {:induction false} ByContractOfOrdered(rows: seq<Row>)
    requires forall i :: 0 <= i < |rows| ==> ContractRow(rows[i])
    requires InContractOrder(rows)
    ensures forall i :: 0 <= i < |rows| ==> ContractOf(rows[i]) in ByContract(rows) && ByContract(rows)[ContractOf(rows[i])] == rows[i]
    ensures |ByContract(rows)| == |rows|
  {
    if rows != [] {
      var last := |rows| - 1;
      ByContractOfOrdered(rows[..last]);
      assert forall i :: 0 <= i < last ==> Before(ContractOf(rows[i]), ContractOf(rows[last]));
      if ContractOf(rows[last]) in ByContract(rows[..last]) {
        var i := ByContractIndex(rows[..last], ContractOf(rows[last]));
      }
    }
  }

  lemma {:induction false} LeastContract(contracts: set<Contract>) returns (least: Contract)
    requires contracts != {}
    ensures least in contracts && forall c :: c in contracts ==> !Before(c, least)
  {
    var some :| some in contracts;
    least := some;
    if contracts != {some} {
      var other := LeastContract(contracts - {some});
      least := if Before(other, some) then other else some;
      forall c | c in contracts
        ensures !Before(c, least)
      {
        assert c == some || c in contracts - {some};
      }
    }
  }

  lemma LeastExists(contracts: set<Contract>)
    requires contracts != {}
    ensures exists least :: least in contracts && forall c :: c in contracts ==> !Before(c, least)
  {
    var least := LeastContract(contracts);
  }

  predicate Ordered(contracts: seq<Contract>) {
    forall i, j :: 0 <= i < j < |contracts| ==> Before(contracts[i], contracts[j])
  }

  /** The contracts by strike, the Call before the Put. */
  function SortedContracts(contracts: set<Contract>): (sorted: seq<Contract>)
    ensures |sorted| == |contracts|
    ensures forall c :: c in sorted <==> c in contracts
    ensures Ordered(sorted)
    decreases |contracts|
  {
    if contracts == {} then [] else
    LeastExists(contracts);
    var least :| least in contracts && forall c :: c in contracts ==> !Before(c, least);
    LeastFirst(contracts, least, SortedContracts(contracts - {least}));
    hide Ordered;
    [least] + SortedContracts(contracts - {least})
  }

  lemma LeastFirst(contracts: set<Contract>, least: Contract, rest: seq<Contract>)
    requires least in contracts && forall c :: c in contracts ==> !Before(c, least)
    requires |rest| == |contracts - {least}| && Ordered(rest) && forall c :: c in rest <==> c in contracts - {least}
    ensures |[least] + rest| == |contracts| && Ordered([least] + rest) && forall c :: c in [least] + rest <==> c in contracts
  {
    forall i | 0 <= i < |rest|
      ensures Before(least, rest[i])
    {
      assert rest[i] in contracts - {least};
    }
    assert contracts == contracts - {least} + {least};
  }

  /** sorted(…) of a dictionary's rows. */
  function SortedRows(m: map<Contract, Row>): (rows: seq<Row>)
    requires OwnContracts(m)
    ensures |rows| == |m|
    ensures forall i :: 0 <= i < |rows| ==> ContractRow(rows[i]) && ContractOf(rows[i]) == SortedContracts(m.Keys)[i] && rows[i] == m[ContractOf(rows[i])]
  {
    var contracts := SortedContracts(m.Keys);
    assert forall i :: 0 <= i < |contracts| ==> contracts[i] in contracts;
    seq(|contracts|, i requires 0 <= i < |contracts| => m[contracts[i]])
  }

  /** Sorting and reading back as a dictionary gives the same contracts and rows. */
  lemma ByContractOfSorted(m: map<Contract, Row>)
    requires OwnContracts(m)
    ensures InContractOrder(SortedRows(m))
    ensures ByContract(SortedRows(m)) == m
  {
    hide SortedContracts, SortedRows, ByContract;
    var rows, contracts := SortedRows(m), SortedContracts(m.Keys);
    ByContractOfOrdered(rows);
    forall c | c in m
      ensures c in ByContract(rows) && ByContract(rows)[c] == m[c]
    {
      var i :| 0 <= i < |contracts| && contracts[i] == c;
      assert ContractOf(rows[i]) == c;
    }
    forall c | c in ByContract(rows)
      ensures c in m
    {
      var i := ByContractIndex(rows, c);
      assert contracts[i] in contracts;
    }
  }

  // ---------------------------------------------------------------------------------------
  // A table

  predicate StoredWell(f64: DoubleCodec, part: Part, slices: map<int, StoredSlice>) {
    forall key :: key in slices ==> WellKept(f64, part, slices[key])
  }

  /** The dictionary a slice reads back as; empty for a key with no slice. */
  function ContractsAt(f64: DoubleCodec, part: Part, slices: map<int, StoredSlice>, key: int): (m: map<Contract, Row>)
    requires StoredWell(f64, part, slices)
    ensures OwnContracts(m)
  {
    if key in slices then ByContract(RowsIn(f64, part, slices[key])) else map[]
  }

  /** The flat map the table stands for. */
  ghost function FlatOf(f64: DoubleCodec, part: Part, slices: map<int, StoredSlice>): (flat: FlatRows)
    requires StoredWell(f64, part, slices)
    ensures forall rowKey :: rowKey in flat <==> rowKey.contract in ContractsAt(f64, part, slices, rowKey.key)
    ensures forall rowKey :: rowKey in flat ==> flat[rowKey] == ContractsAt(f64, part, slices, rowKey.key)[rowKey.contract]
  {
    map rowKey | rowKey in (set key, c | key in slices && c in ContractsAt(f64, part, slices, key) :: RowKey(key, c)) ::
      ContractsAt(f64, part, slices, rowKey.key)[rowKey.contract]
  }

  datatype MergeError = AlreadyStored | Unpackable(error: PackError)

  lemma {:induction false} CallsCount(rows: seq<Row>, n: nat)
    requires n <= |rows| && forall i :: 0 <= i < |rows| ==> ContractRow(rows[i])
    ensures n < |rows| ==> CallsIn(rows[..n + 1]) == CallsIn(rows[..n]) + if ContractOf(rows[n]).put then 0 else 1
  {
    if n < |rows| {
      assert rows[..n + 1][..n] == rows[..n];
    }
  }

  /** One option part's slice table. */
  class SliceTable {
    const f64: DoubleCodec
    const part: Part
    var slices: map<int, StoredSlice>
    // The primary key's order: SQLite reads the table by it.
    var keys: seq<int>

    ghost predicate Valid()
      reads this
    {
      f64.Valid() && StoredWell(f64, part, slices) && Ascending(keys) && forall key :: key in keys <==> key in slices
    }

    ghost function Rows(): FlatRows
      requires Valid()
      reads this
    {
      FlatOf(f64, part, slices)
    }

    constructor (f64: DoubleCodec, part: Part)
      requires f64.Valid()
      ensures Valid() && this.f64 == f64 && this.part == part && Rows() == map[]
    {
      this.f64, this.part, slices, keys := f64, part, map[], [];
    }

    /** slice_counts: the Calls and the Puts. */
    method SliceCounts(rows: seq<Row>) returns (calls: nat, puts: nat)
      requires forall i :: 0 <= i < |rows| ==> ContractRow(rows[i])
      ensures calls == CallsIn(rows) && calls + puts == |rows|
    {
      calls := 0;
      for i := 0 to |rows|
        invariant calls == CallsIn(rows[..i])
      {
        CallsCount(rows, i);
        if rows[i][1] == Text("C") {
          calls := calls + 1;
        }
      }
      assert rows[..|rows|] == rows;
      puts := |rows| - calls;
    }

    /** write_slice: the rows sorted, counted, flagged and packed under the key. */
    method WriteSlice(key: int, rows: map<Contract, Row>) returns (r: Result<(), MergeError>)
      requires Valid() && KeptRows(f64, part, rows) && rows != map[]
      modifies this
      ensures Valid()
      ensures r.Ok? ==> key in slices && slices == old(slices)[key := slices[key]] && ContractsAt(f64, part, slices, key) == rows
      ensures r.Err? ==> slices == old(slices) && r.error.Unpackable?
    {
      hide RowsIn, PackedSlice, WellKept, ByContract, SortedRows, Flagged, PartRow;
      var sorted := SortedRows(rows);
      SortedRowsKept(f64, part, rows);
      var callCount, putCount := SliceCounts(sorted);
      var packed := PackSlice(f64, sorted, ColumnsOf(part));
      if packed.Err? {
        return Err(Unpackable(packed.error));
      }
      var flag := exists i :: 0 <= i < |sorted| && Flagged(part, sorted[i]);
      var slice := StoredSlice(callCount, putCount, flag, packed.value);
      WrittenSliceKept(f64, part, rows, slice);
      SliceWritten(f64, part, slices, key, slice);
      hide StoredWell, ContractsAt, CallsIn, WithKey;
      slices, keys := slices[key := slice], WithKey(keys, key);
      return Ok(());
    }

    /** A slice's stored contracts with the given ones, contract by contract. */
    method MergeContracts(ghost flat: FlatRows, rows: seq<KeyedRow>, key: int, stored: map<Contract, Row>, onStored: OnStored)
      returns (r: Result<(map<Contract, Row>, nat), MergeError>)
      requires KeptKeyedRows(f64, part, rows) && KeptRows(f64, part, stored) && forall i :: 0 <= i < |rows| ==> rows[i].key == key
      requires IsBlock(stored, flat, key)
      ensures r.Ok? ==> KeptRows(f64, part, r.value.0) && |r.value.0| == |stored| + r.value.1
      ensures r.Ok? ==> IsMergedBlock(r.value.0, flat, rows, onStored, key)
      ensures r.Ok? ==> r.value.0.Keys >= stored.Keys && (rows != [] ==> r.value.0 != map[])
      ensures onStored == Fail ==> (r.Err? <==> Clashes(flat, rows))
      ensures r.Err? ==> onStored == Fail && r.error == AlreadyStored
    {
      hide MergedAt, PartRow, Lookup, Clashes, IsMergedBlock, IsBlock;
      var merged, added := stored, 0;
      NothingMerged(stored, flat, key, onStored);
      KeptAreContracts(f64, part, rows);
      assert rows[..0] == [];
      for i := 0 to |rows|
        invariant KeptRows(f64, part, merged) && |merged| == |stored| + added && merged.Keys >= stored.Keys && (i > 0 ==> merged != map[])
        invariant IsMergedBlock(merged, flat, rows[..i], onStored, key)
        invariant onStored == Fail ==> !Clashes(flat, rows[..i])
      {
        var row := rows[i].row;
        var contract := ContractOf(row);
        MergeStep(f64, part, flat, rows, i, key, merged, onStored);
        if contract !in merged {
          added := added + 1;
          merged := merged[contract := row];
        } else if onStored == Fail {
          StillClashes(flat, rows, i + 1);
          return Err(AlreadyStored);
        } else if onStored == Replace {
          merged := merged[contract := row];
        }
      }
      assert rows[..|rows|] == rows;
      return Ok((merged, added));
    }

    /** The rows by their slice's key, each slice's in the order given, and the keys sorted. */
    method GroupByKey(rows: seq<KeyedRow>) returns (rowsByKey: map<int, seq<KeyedRow>>, keys: seq<int>)
      requires ContractRows(rows)
      ensures forall key :: key in rowsByKey <==> RowsOfKey(rows, key) != []
      ensures forall key :: key in rowsByKey ==> rowsByKey[key] == RowsOfKey(rows, key)
      ensures Ascending(keys) && forall key :: key in keys <==> key in rowsByKey
    {
      hide RowsOfKey, WithKey, Ascending;
      rowsByKey, keys := map[], [];
      NoRowsByKey();
      for i := 0 to |rows|
        invariant forall key :: key in rowsByKey <==> RowsOfKey(rows[..i], key) != []
        invariant forall key :: key in rowsByKey ==> rowsByKey[key] == RowsOfKey(rows[..i], key)
        invariant Ascending(keys) && forall key :: key in keys <==> key in rowsByKey
      {
        var row := rows[i];
        RowsOneMore(rows, i);
        rowsByKey := rowsByKey[row.key := (if row.key in rowsByKey then rowsByKey[row.key] else []) + [row]];
        keys := WithKey(keys, row.key);
      }
      assert rows[..|rows|] == rows;
    }

    /** One slice of merge_part_rows: read, merged with its rows, written. */
    method MergeSlice(ghost flat: FlatRows, ghost rows: seq<KeyedRow>, key: int, own: seq<KeyedRow>, onStored: OnStored) returns (r: Result<nat, MergeError>)
      requires Valid() && KeptKeyedRows(f64, part, rows) && ContractRows(rows) && own == RowsOfKey(rows, key) && own != []
      requires IsBlock(ContractsAt(f64, part, slices, key), flat, key)
      modifies this
      ensures Valid()
      ensures forall other :: other != key ==> ContractsAt(f64, part, slices, other) == old(ContractsAt(f64, part, slices, other))
      ensures r.Ok? ==> IsMergedBlock(ContractsAt(f64, part, slices, key), flat, rows, onStored, key)
      ensures r.Ok? ==> |Rows()| == |old(Rows())| + r.value
      ensures r.Ok? && onStored == Fail ==> !Clashes(flat, RowsOfKey(rows, key))
      ensures r == Err(AlreadyStored) ==> onStored == Fail && Clashes(flat, rows)
      ensures r.Err? ==> slices == old(slices)
    {
      hide MergedAt, PartRow, Lookup, Clashes, WellKept, ByContract, RowsIn, IsBlock, IsMergedBlock, RowsOfKey, Merged, FlatOf, ContractsAt;
      var stored := ContractsAt(f64, part, slices, key);
      StoredContractsKept(f64, part, slices, key);
      RowsOfKeyKept(f64, part, rows, key);
      var merged := MergeContracts(flat, own, key, stored, onStored);
      if merged.Err? {
        assert Clashes(flat, RowsOfKey(rows, key));
        ClashesByKey(flat, rows);
        return Err(AlreadyStored);
      }
      ghost var before := slices;
      var written :- WriteSlice(key, merged.value.0);
      OtherSlicesStay(f64, part, before, key, slices[key]);
      FlatSizeAfterWrite(f64, part, before, key, slices[key]);
      MergedBlockOfAll(merged.value.0, flat, rows, onStored, key);
      return Ok(merged.value.1);
    }

    /**
     merge_part_rows: the rows grouped by slice, each slice read, merged contract by contract and
     written again. On an error the slices written so far stay, for the caller's transaction to roll back.
     */
    method MergePartRows(rows: seq<KeyedRow>, onStored: OnStored) returns (r: Result<nat, MergeError>)
      requires Valid() && KeptKeyedRows(f64, part, rows)
      modifies this
      ensures Valid() && ContractRows(rows)
      ensures r.Ok? ==> Rows() == Merged(old(Rows()), rows, onStored) && r.value == |Rows()| - |old(Rows())|
      ensures onStored == Fail && Clashes(old(Rows()), rows) ==> r.Err?
      ensures r == Err(AlreadyStored) ==> onStored == Fail && Clashes(old(Rows()), rows)
      ensures r.Err? ==> forall key ::
                IsBlock(ContractsAt(f64, part, slices, key), old(Rows()), key) || IsMergedBlock(ContractsAt(f64, part, slices, key), old(Rows()), rows, onStored, key)
    {
      hide MergedAt, PartRow, Lookup, Clashes, WellKept, ByContract, RowsIn, IsBlock, IsMergedBlock, RowsOfKey, Merged, FlatOf, ContractsAt, Ascending;
      ghost var flat := Rows();
      KeptAreContracts(f64, part, rows);
      var rowsByKey, merging := GroupByKey(rows);
      MergeStarts(f64, part, slices, rows, onStored);
      var added := 0;
      for i := 0 to |merging|
        invariant Valid()
        invariant forall key :: key in merging[i..] ==> IsBlock(ContractsAt(f64, part, slices, key), flat, key)
        invariant forall key :: key !in merging[i..] ==> IsMergedBlock(ContractsAt(f64, part, slices, key), flat, rows, onStored, key)
        invariant onStored == Fail ==> forall key :: key !in merging[i..] ==> !Clashes(flat, RowsOfKey(rows, key))
        invariant added == |Rows()| - |flat|
      {
        var key := merging[i];
        AscendingTail(merging, i);
        var merged := MergeSlice(flat, rows, key, rowsByKey[key], onStored);
        if merged.Err? {
          return Err(merged.error);
        }
        added := added + merged.value;
      }
      MergeEnds(f64, part, slices, flat, rows, onStored);
      if onStored == Fail {
        ClashesByKey(flat, rows);
      }
      return Ok(added);
    }

    /** delete_part_rows_of_day */
    method DeletePartRowsOfDay(day: int)
      requires Valid()
      modifies this
      ensures Valid() && Rows() == WithoutDay(old(Rows()), day)
    {
      hide WellKept, RowsIn, ByContract;
      var (first, last) := DayKeyRange(day);
      ghost var before := slices;
      slices := map key | key in slices && !(first <= key <= last) :: slices[key];
      keys := KeysOutside(keys, first, last);
      DeletedDay(f64, part, before, slices, day);
    }

    /** count_part_rows: call_count + put_count summed over the day's key range. */
    method CountPartRows(day: int) returns (count: nat)
      requires Valid()
      ensures count == |DayKeys(Rows(), day)|
    {
      hide WellKept, RowsIn, ByContract, FlatOf, DayKeys;
      var (first, last) := DayKeyRange(day);
      count := 0;
      for i := 0 to |keys|
        invariant count == |DayKeysAmong(Rows(), day, keys[..i])|
      {
        var key := keys[i];
        assert keys[..i + 1] == keys[..i] + [key];
        assert key !in keys[..i];
        CountedSlice(f64, part, slices, day, keys[..i], key);
        if first <= key <= last {
          count := count + slices[key].callCount + slices[key].putCount;
        }
      }
      AllKeysCounted(f64, part, slices, day, keys);
    }

    /** The looks count_intraday_rows_and_looks counts, by the slices' keys. */
    method CountLooks(day: int) returns (looks: nat)
      requires Valid()
      ensures looks == |LooksOf(DayKeys(Rows(), day))|
    {
      hide WellKept, RowsIn, ByContract, FlatOf, DayKeys, LooksOf, LooksAmong, StoredWell, DayKeyRange, DayNumberOfKey, LookMinuteOfKey;
      var (first, last) := DayKeyRange(day);
      var lookMinutes := map[];
      looks := 0;
      LooksOfNone(day);
      assert keys[..0] == [];
      for i := 0 to |keys|
        invariant lookMinutes.Keys == LooksAmong(day, keys[..i]) && looks == |lookMinutes|
      {
        LooksOneMore(day, keys, i);
        DayKeyRangeIsTheDay(day, keys[i]);
        if first <= keys[i] <= last {
          var minute := LookMinuteOfKey(keys[i]);
          if minute !in lookMinutes {
            looks := looks + 1;
          }
          lookMinutes := lookMinutes[minute := ()];
        }
      }
      assert keys[..|keys|] == keys;
      LooksByKeys(f64, part, slices, day, keys);
    }

    /** part_has_rows: a slice of the day, of the given days to expiry when there are any. */
    method HasRows(day: int, daysToExpiry: Option<int>) returns (has: bool)
      requires Valid()
      ensures has <==> DayHolds(Rows(), day, daysToExpiry)
    {
      hide WellKept, RowsIn, ByContract, FlatOf;
      var (first, last) := DayKeyRange(day);
      for i := 0 to |keys|
        invariant forall key :: key in keys[..i] ==> !(DayNumberOfKey(key) == day && (daysToExpiry.Some? ==> DaysToExpiryOfKey(key) == daysToExpiry.value))
      {
        var key := keys[i];
        DayKeyRangeIsTheDay(day, key);
        SliceHoldsRow(f64, part, slices, key);
        if first <= key <= last && (daysToExpiry.None? || DaysToExpiryOfKey(key) == daysToExpiry.value) {
          return true;
        }
      }
      NoSliceNoRow(f64, part, slices, keys);
      return false;
    }

    /** read_part_rows of one day: every stored row of the day once, by look, expiry, strike and right. */
    method ReadPartRows(day: int) returns (rows: seq<KeyedRow>)
      requires Valid()
      ensures ContractRows(rows) && InReadOrder(rows)
      ensures forall rowKey :: rowKey in DayKeys(Rows(), day) <==> Among(rows, rowKey)
      ensures forall i :: 0 <= i < |rows| ==> RowKeyOf(rows[i]) in Rows() && Rows()[RowKeyOf(rows[i])] == rows[i].row
    {
      hide RowsIn, FlatOf, StoredWell, ReadSoFar;
      var (first, last) := DayKeyRange(day);
      rows := [];
      NothingRead(Rows(), day);
      assert keys[..0] == [];
      for i := 0 to |keys|
        invariant ReadSoFar(Rows(), day, keys[..i], rows)
      {
        var key := keys[i];
        if first <= key <= last {
          ReadSlice(f64, part, slices, day, keys, i, rows);
          rows := rows + Keyed(key, RowsIn(f64, part, slices[key]));
        } else {
          SkippedSlice(f64, part, slices, day, keys, i, rows);
        }
      }
      AllKeysCounted(f64, part, slices, day, keys);
      ReadMeans(Rows(), day, keys[..|keys|], rows);
    }
  }

  lemma NoRowsByKey()
    ensures Ascending([]) && forall key :: RowsOfKey([], key) == []
  {}

  lemma RowsOneMore(rows: seq<KeyedRow>, i: nat)
    requires ContractRows(rows) && i < |rows|
    ensures ContractRows(rows[..i]) && ContractRows(rows[..i + 1])
    ensures forall key :: RowsOfKey(rows[..i + 1], key) == RowsOfKey(rows[..i], key) + if rows[i].key == key then [rows[i]] else []
  {
    assert rows[..i + 1][..i] == rows[..i];
  }

  ghost function LooksOf(rowKeys: set<RowKey>): set<int> {
    set rowKey | rowKey in rowKeys :: LookMinuteOfKey(rowKey.key)
  }

  function LooksAmong(day: int, keys: seq<int>): set<int> {
    set key | key in keys && DayNumberOfKey(key) == day :: LookMinuteOfKey(key)
  }

  lemma LooksOfNone(day: int)
    ensures LooksAmong(day, []) == {}
  {}

  lemma LooksOneMore(day: int, keys: seq<int>, i: nat)
    requires i < |keys|
    ensures LooksAmong(day, keys[..i + 1]) == LooksAmong(day, keys[..i]) + if DayNumberOfKey(keys[i]) == day then {LookMinuteOfKey(keys[i])} else {}
  {
    assert keys[..i + 1] == keys[..i] + [keys[i]];
  }

  /** The day, or one expiration of it, has a stored row. */
  ghost predicate DayHolds(flat: FlatRows, day: int, daysToExpiry: Option<int>) {
    exists rowKey :: rowKey in DayKeys(flat, day) && (daysToExpiry.Some? ==> DaysToExpiryOfKey(rowKey.key) == daysToExpiry.value)
  }

  /** A stored slice holds a row. */
  lemma SliceHoldsRow(f64: DoubleCodec, part: Part, slices: map<int, StoredSlice>, key: int)
    requires StoredWell(f64, part, slices)
    ensures key in slices ==> exists rowKey :: rowKey in FlatOf(f64, part, slices) && rowKey.key == key
  {
    hide RowsIn;
    if key in slices {
      var rows := RowsIn(f64, part, slices[key]);
      ByContractOfOrdered(rows);
      assert RowKey(key, ContractOf(rows[0])) in FlatOf(f64, part, slices);
    }
  }

  lemma NoSliceNoRow(f64: DoubleCodec, part: Part, slices: map<int, StoredSlice>, keys: seq<int>)
    requires StoredWell(f64, part, slices) && forall key :: key in keys <==> key in slices
    ensures forall rowKey :: rowKey in FlatOf(f64, part, slices) ==> rowKey.key in keys[..|keys|]
  {
    hide RowsIn, WellKept, ByContract;
    assert keys[..|keys|] == keys;
  }

  /** The looks of a day's slices are the looks of its rows. */
  lemma LooksByKeys(f64: DoubleCodec, part: Part, slices: map<int, StoredSlice>, day: int, keys: seq<int>)
    requires StoredWell(f64, part, slices) && forall key :: key in keys <==> key in slices
    ensures LooksAmong(day, keys) == LooksOf(DayKeys(FlatOf(f64, part, slices), day))
  {
    hide RowsIn, WellKept, ByContract, FlatOf, StoredWell;
    NoSliceNoRow(f64, part, slices, keys);
    assert keys[..|keys|] == keys;
    var flat := FlatOf(f64, part, slices);
    forall minute | minute in LooksAmong(day, keys)
      ensures minute in LooksOf(DayKeys(flat, day))
    {
      var key :| key in keys && DayNumberOfKey(key) == day && LookMinuteOfKey(key) == minute;
      SliceHoldsRow(f64, part, slices, key);
    }
  }

  lemma DeletedDay(f64: DoubleCodec, part: Part, before: map<int, StoredSlice>, after: map<int, StoredSlice>, day: int)
    requires StoredWell(f64, part, before)
    requires after == map key | key in before && !(DayKeyRange(day).0 <= key <= DayKeyRange(day).1) :: before[key]
    ensures StoredWell(f64, part, after) && FlatOf(f64, part, after) == WithoutDay(FlatOf(f64, part, before), day)
  {
    hide WellKept, RowsIn, ByContract;
    forall rowKey
      ensures Lookup(FlatOf(f64, part, after), rowKey) == Lookup(WithoutDay(FlatOf(f64, part, before), day), rowKey)
    {
      DayKeyRangeIsTheDay(day, rowKey.key);
    }
    SameLookups(FlatOf(f64, part, after), WithoutDay(FlatOf(f64, part, before), day));
  }

  /** The day's stored rows in the slices of some keys. */
  ghost function DayKeysAmong(flat: FlatRows, day: int, keys: seq<int>): set<RowKey> {
    set rowKey | rowKey in flat && DayNumberOfKey(rowKey.key) == day && rowKey.key in keys
  }

  lemma AllKeysCounted(f64: DoubleCodec, part: Part, slices: map<int, StoredSlice>, day: int, keys: seq<int>)
    requires StoredWell(f64, part, slices) && forall key :: key in slices ==> key in keys
    ensures DayKeysAmong(FlatOf(f64, part, slices), day, keys[..|keys|]) == DayKeys(FlatOf(f64, part, slices), day)
  {
    hide WellKept, RowsIn, ByContract;
    assert keys[..|keys|] == keys;
  }

  lemma SliceSize(f64: DoubleCodec, part: Part, slices: map<int, StoredSlice>, key: int)
    requires StoredWell(f64, part, slices) && key in slices
    ensures |ContractsAt(f64, part, slices, key)| == slices[key].callCount + slices[key].putCount
  {
    assert WellKept(f64, part, slices[key]);
    ByContractOfOrdered(RowsIn(f64, part, slices[key]));
  }

  lemma CountedSlice(f64: DoubleCodec, part: Part, slices: map<int, StoredSlice>, day: int, keys: seq<int>, key: int)
    requires StoredWell(f64, part, slices) && key in slices && key !in keys
    ensures |DayKeysAmong(FlatOf(f64, part, slices), day, keys + [key])| == |DayKeysAmong(FlatOf(f64, part, slices), day, keys)|
            + if DayKeyRange(day).0 <= key <= DayKeyRange(day).1 then slices[key].callCount + slices[key].putCount else 0
  {
    hide WellKept, FlatOf, StoredWell, ContractsAt;
    DayKeyRangeIsTheDay(day, key);
    SliceSize(f64, part, slices, key);
    var flat, m := FlatOf(f64, part, slices), ContractsAt(f64, part, slices, key);
    if DayNumberOfKey(key) == day {
      assert DayKeysAmong(flat, day, keys + [key]) == DayKeysAmong(flat, day, keys) + BlockKeys(m.Keys, key);
      BlockSize(m.Keys, key);
    } else {
      assert DayKeysAmong(flat, day, keys + [key]) == DayKeysAmong(flat, day, keys);
    }
  }

  /** By slice key, then by strike, the Call before the Put. */
  predicate InReadOrder(rows: seq<KeyedRow>)
    requires ContractRows(rows)
  {
    forall i, j :: 0 <= i < j < |rows| ==>
      rows[i].key < rows[j].key || (rows[i].key == rows[j].key && Before(ContractOf(rows[i].row), ContractOf(rows[j].row)))
  }

  function Keyed(key: int, rows: seq<Row>): (keyed: seq<KeyedRow>)
    ensures |keyed| == |rows| && forall i :: 0 <= i < |rows| ==> keyed[i] == KeyedRow(key, rows[i])
  {
    seq(|rows|, i requires 0 <= i < |rows| => KeyedRow(key, rows[i]))
  }

  /** The flat map's rows of one slice are the slice's rows. */
  lemma SliceInFlat(f64: DoubleCodec, part: Part, slices: map<int, StoredSlice>, key: int)
    requires StoredWell(f64, part, slices) && key in slices
    ensures var rows, flat := RowsIn(f64, part, slices[key]), FlatOf(f64, part, slices);
            && ContractRows(Keyed(key, rows))
            && InContractOrder(rows)
            && (forall i :: 0 <= i < |rows| ==> RowKey(key, ContractOf(rows[i])) in flat && flat[RowKey(key, ContractOf(rows[i]))] == rows[i])
            && (forall rowKey :: rowKey in flat && rowKey.key == key ==> Among(Keyed(key, rows), rowKey))
  {
    hide RowsIn, ByContract, FlatOf;
    var rows, flat := RowsIn(f64, part, slices[key]), FlatOf(f64, part, slices);
    assert WellKept(f64, part, slices[key]);
    ByContractOfOrdered(rows);
    forall rowKey | rowKey in flat && rowKey.key == key
      ensures Among(Keyed(key, rows), rowKey)
    {
      var i := ByContractIndex(rows, rowKey.contract);
      assert RowKeyOf(Keyed(key, rows)[i]) == rowKey;
    }
  }

  /** What read_part_rows has read of a day so far. */
  ghost predicate ReadSoFar(flat: FlatRows, day: int, keys: seq<int>, rows: seq<KeyedRow>) {
    && ContractRows(rows) && InReadOrder(rows)
    && (forall rowKey :: rowKey in DayKeysAmong(flat, day, keys) <==> Among(rows, rowKey))
    && (forall j :: 0 <= j < |rows| ==> RowKeyOf(rows[j]) in flat && flat[RowKeyOf(rows[j])] == rows[j].row)
    && (forall j :: 0 <= j < |rows| ==> rows[j].key in keys)
  }

  lemma SkippedSlice(f64: DoubleCodec, part: Part, slices: map<int, StoredSlice>, day: int, keys: seq<int>, i: nat, rows: seq<KeyedRow>)
    requires StoredWell(f64, part, slices) && i < |keys| && !(DayKeyRange(day).0 <= keys[i] <= DayKeyRange(day).1)
    requires ReadSoFar(FlatOf(f64, part, slices), day, keys[..i], rows)
    ensures ReadSoFar(FlatOf(f64, part, slices), day, keys[..i + 1], rows)
  {
    hide WellKept, FlatOf, StoredWell, ContractsAt;
    DayKeyRangeIsTheDay(day, keys[i]);
    assert keys[..i + 1] == keys[..i] + [keys[i]];
    assert DayKeysAmong(FlatOf(f64, part, slices), day, keys[..i + 1]) == DayKeysAmong(FlatOf(f64, part, slices), day, keys[..i]);
  }

  lemma NothingRead(flat: FlatRows, day: int)
    ensures ReadSoFar(flat, day, [], [])
  {
    assert DayKeysAmong(flat, day, []) == {};
  }

  lemma ReadMeans(flat: FlatRows, day: int, keys: seq<int>, rows: seq<KeyedRow>)
    requires ReadSoFar(flat, day, keys, rows) && DayKeysAmong(flat, day, keys) == DayKeys(flat, day)
    ensures ContractRows(rows) && InReadOrder(rows)
    ensures forall rowKey :: rowKey in DayKeys(flat, day) <==> Among(rows, rowKey)
    ensures forall i :: 0 <= i < |rows| ==> RowKeyOf(rows[i]) in flat && flat[RowKeyOf(rows[i])] == rows[i].row
  {}

  lemma ReadSlice(f64: DoubleCodec, part: Part, slices: map<int, StoredSlice>, day: int, keys: seq<int>, i: nat, rows: seq<KeyedRow>)
    requires StoredWell(f64, part, slices) && Ascending(keys) && i < |keys| && keys[i] in slices
    requires DayKeyRange(day).0 <= keys[i] <= DayKeyRange(day).1
    requires ReadSoFar(FlatOf(f64, part, slices), day, keys[..i], rows)
    ensures ReadSoFar(FlatOf(f64, part, slices), day, keys[..i + 1], rows + Keyed(keys[i], RowsIn(f64, part, slices[keys[i]])))
  {
    hide RowsIn, FlatOf, StoredWell, ContractsAt;
    var flat, own := FlatOf(f64, part, slices), RowsIn(f64, part, slices[keys[i]]);
    DayKeyRangeIsTheDay(day, keys[i]);
    SliceInFlat(f64, part, slices, keys[i]);
    ReadAppended(flat, day, keys, i, rows, own);
  }

  lemma ReadAppended(flat: FlatRows, day: int, keys: seq<int>, i: nat, rows: seq<KeyedRow>, own: seq<Row>)
    requires Ascending(keys) && i < |keys| && DayNumberOfKey(keys[i]) == day && ReadSoFar(flat, day, keys[..i], rows)
    requires ContractRows(Keyed(keys[i], own)) && InContractOrder(own)
    requires forall j :: 0 <= j < |own| ==> RowKey(keys[i], ContractOf(own[j])) in flat && flat[RowKey(keys[i], ContractOf(own[j]))] == own[j]
    requires forall rowKey :: rowKey in flat && rowKey.key == keys[i] ==> Among(Keyed(keys[i], own), rowKey)
    ensures ReadSoFar(flat, day, keys[..i + 1], rows + Keyed(keys[i], own))
  {
    hide Among, DayKeysAmong;
    var keyed := Keyed(keys[i], own);
    KeysBefore(flat, day, keys, i, rows);
    OrderAppended(rows, keys[i], own);
    forall rowKey
      ensures rowKey in DayKeysAmong(flat, day, keys[..i + 1]) <==> Among(rows + keyed, rowKey)
    {
      AmongConcatenated(rows, keyed, rowKey);
      DayKeysOneMore(flat, day, keys, i, rowKey);
      if Among(keyed, rowKey) {
        OwnAmong(keys[i], own, rowKey);
      }
    }
  }

  lemma KeysBefore(flat: FlatRows, day: int, keys: seq<int>, i: nat, rows: seq<KeyedRow>)
    requires Ascending(keys) && i < |keys| && ReadSoFar(flat, day, keys[..i], rows)
    ensures forall j :: 0 <= j < |rows| ==> rows[j].key < keys[i] && rows[j].key in keys[..i + 1]
  {
    forall j | 0 <= j < |rows|
      ensures rows[j].key < keys[i] && rows[j].key in keys[..i + 1]
    {
      var k :| 0 <= k < i && keys[..i][k] == rows[j].key;
      assert keys[..i + 1][k] == rows[j].key;
    }
  }

  lemma OrderAppended(rows: seq<KeyedRow>, key: int, own: seq<Row>)
    requires ContractRows(rows) && InReadOrder(rows) && (forall j :: 0 <= j < |rows| ==> rows[j].key < key)
    requires ContractRows(Keyed(key, own)) && (forall j :: 0 <= j < |own| ==> ContractRow(own[j])) && InContractOrder(own)
    ensures ContractRows(rows + Keyed(key, own)) && InReadOrder(rows + Keyed(key, own))
  {}

  lemma DayKeysOneMore(flat: FlatRows, day: int, keys: seq<int>, i: nat, rowKey: RowKey)
    requires i < |keys|
    ensures rowKey in DayKeysAmong(flat, day, keys[..i + 1])
            <==> rowKey in DayKeysAmong(flat, day, keys[..i]) || (rowKey in flat && DayNumberOfKey(rowKey.key) == day && rowKey.key == keys[i])
  {
    assert keys[..i + 1] == keys[..i] + [keys[i]];
  }

  lemma OwnAmong(key: int, own: seq<Row>, rowKey: RowKey)
    requires ContractRows(Keyed(key, own)) && Among(Keyed(key, own), rowKey)
    ensures rowKey.key == key && exists j :: 0 <= j < |own| && ContractRow(own[j]) && rowKey == RowKey(key, ContractOf(own[j]))
  {
    var j :| 0 <= j < |Keyed(key, own)| && RowKeyOf(Keyed(key, own)[j]) == rowKey;
    assert ContractRow(own[j]) && rowKey == RowKey(key, ContractOf(own[j]));
  }

  lemma AmongConcatenated(first: seq<KeyedRow>, second: seq<KeyedRow>, rowKey: RowKey)
    requires ContractRows(first) && ContractRows(second)
    ensures ContractRows(first + second)
    ensures Among(first + second, rowKey) <==> Among(first, rowKey) || Among(second, rowKey)
  {
    var all := first + second;
    if Among(first, rowKey) {
      var i :| 0 <= i < |first| && RowKeyOf(first[i]) == rowKey;
      assert all[i] == first[i];
    }
    if Among(second, rowKey) {
      var i :| 0 <= i < |second| && RowKeyOf(second[i]) == rowKey;
      assert all[|first| + i] == second[i];
    }
  }

  function ValueOf(m: map<Contract, Row>, contract: Contract): Option<Row> {
    if contract in m then Some(m[contract]) else None
  }

  /** The dictionary holds the flat map's rows of the key. */
  ghost predicate IsBlock(m: map<Contract, Row>, flat: FlatRows, key: int) {
    forall c :: ValueOf(m, c) == Lookup(flat, RowKey(key, c))
  }

  /** The dictionary holds what merging gives for the key. */
  ghost predicate IsMergedBlock(m: map<Contract, Row>, flat: FlatRows, rows: seq<KeyedRow>, onStored: OnStored, key: int)
    requires ContractRows(rows)
  {
    forall c :: ValueOf(m, c) == MergedAt(flat, rows, onStored, RowKey(key, c))
  }

  lemma KeptAreContracts(f64: DoubleCodec, part: Part, rows: seq<KeyedRow>)
    requires KeptKeyedRows(f64, part, rows)
    ensures ContractRows(rows)
  {
    forall i | 0 <= i < |rows|
      ensures ContractRow(rows[i].row)
    {
      assert PartRow(f64, part, rows[i].row);
    }
  }

  lemma NothingMerged(m: map<Contract, Row>, flat: FlatRows, key: int, onStored: OnStored)
    requires IsBlock(m, flat, key)
    ensures IsMergedBlock(m, flat, [], onStored, key) && !Clashes(flat, [])
  {
    forall c
      ensures ValueOf(m, c) == MergedAt(flat, [], onStored, RowKey(key, c))
    {
      assert ValueOf(m, c) == Lookup(flat, RowKey(key, c));
    }
  }

  /** One more row of the slice: what the dictionary becomes, and whether the rows clash now. */
  lemma MergeStep(f64: DoubleCodec, part: Part, flat: FlatRows, rows: seq<KeyedRow>, i: nat, key: int, merged: map<Contract, Row>, onStored: OnStored)
    requires KeptKeyedRows(f64, part, rows) && i < |rows| && rows[i].key == key && ContractRows(rows) && KeptRows(f64, part, merged)
    requires IsMergedBlock(merged, flat, rows[..i], onStored, key)
    ensures var contract := ContractOf(rows[i].row);
            var after := if contract in merged && onStored != Replace then merged else merged[contract := rows[i].row];
            && IsMergedBlock(after, flat, rows[..i + 1], onStored, key)
            && KeptRows(f64, part, after)
            && (onStored == Fail ==> (Clashes(flat, rows[..i + 1]) <==> Clashes(flat, rows[..i]) || contract in merged))
  {
    hide MergedAt, Clashes, PartRow;
    var contract := ContractOf(rows[i].row);
    assert PartRow(f64, part, rows[i].row);
    assert rows[..i + 1] == rows[..i] + [rows[i]];
    var after := if contract in merged && onStored != Replace then merged else merged[contract := rows[i].row];
    forall c
      ensures ValueOf(after, c) == MergedAt(flat, rows[..i + 1], onStored, RowKey(key, c))
    {
      MergedAppended(flat, rows[..i], rows[i], onStored, RowKey(key, c));
      assert ValueOf(merged, c) == MergedAt(flat, rows[..i], onStored, RowKey(key, c));
    }
    if onStored == Fail {
      ClashesAppended(flat, rows[..i], rows[i]);
      assert ValueOf(merged, contract) == MergedAt(flat, rows[..i], onStored, RowKey(key, contract));
    }
  }

  lemma StillClashes(flat: FlatRows, rows: seq<KeyedRow>, n: nat)
    requires ContractRows(rows) && n <= |rows| && Clashes(flat, rows[..n])
    ensures Clashes(flat, rows)
  {
    assert forall i :: 0 <= i < n ==> rows[..n][i] == rows[i];
  }

  lemma StoredContractsKept(f64: DoubleCodec, part: Part, slices: map<int, StoredSlice>, key: int)
    requires StoredWell(f64, part, slices)
    ensures KeptRows(f64, part, ContractsAt(f64, part, slices, key))
  {
    var m := ContractsAt(f64, part, slices, key);
    forall c | c in m
      ensures PartRow(f64, part, m[c])
    {
      var i := ByContractIndex(RowsIn(f64, part, slices[key]), c);
    }
  }

  lemma {:induction false} RowsOfKeyKept(f64: DoubleCodec, part: Part, rows: seq<KeyedRow>, key: int)
    requires KeptKeyedRows(f64, part, rows) && ContractRows(rows)
    ensures KeptKeyedRows(f64, part, RowsOfKey(rows, key))
  {
    if rows != [] {
      RowsOfKeyKept(f64, part, rows[..|rows| - 1], key);
    }
  }

  lemma BlockOfTable(f64: DoubleCodec, part: Part, slices: map<int, StoredSlice>, key: int)
    requires StoredWell(f64, part, slices)
    ensures IsBlock(ContractsAt(f64, part, slices, key), FlatOf(f64, part, slices), key)
  {
    hide WellKept, RowsIn, ByContract;
  }

  lemma MergedBlockOfAll(m: map<Contract, Row>, flat: FlatRows, rows: seq<KeyedRow>, onStored: OnStored, key: int)
    requires ContractRows(rows) && IsMergedBlock(m, flat, RowsOfKey(rows, key), onStored, key)
    ensures IsMergedBlock(m, flat, rows, onStored, key)
  {
    hide MergedAt;
    forall c
      ensures ValueOf(m, c) == MergedAt(flat, rows, onStored, RowKey(key, c))
    {
      MergedByKey(flat, rows, onStored, RowKey(key, c));
    }
  }

  lemma MergeStarts(f64: DoubleCodec, part: Part, slices: map<int, StoredSlice>, rows: seq<KeyedRow>, onStored: OnStored)
    requires StoredWell(f64, part, slices) && ContractRows(rows)
    ensures forall key :: IsBlock(ContractsAt(f64, part, slices, key), FlatOf(f64, part, slices), key)
    ensures forall key :: RowsOfKey(rows, key) == [] ==>
      IsMergedBlock(ContractsAt(f64, part, slices, key), FlatOf(f64, part, slices), rows, onStored, key) && !Clashes(FlatOf(f64, part, slices), RowsOfKey(rows, key))
  {
    hide IsBlock, IsMergedBlock, Clashes, RowsOfKey, ContractsAt, FlatOf, WellKept;
    forall key
      ensures IsBlock(ContractsAt(f64, part, slices, key), FlatOf(f64, part, slices), key)
      ensures RowsOfKey(rows, key) == [] ==>
        IsMergedBlock(ContractsAt(f64, part, slices, key), FlatOf(f64, part, slices), rows, onStored, key) && !Clashes(FlatOf(f64, part, slices), RowsOfKey(rows, key))
    {
      BlockOfTable(f64, part, slices, key);
      if RowsOfKey(rows, key) == [] {
        NothingMerged(ContractsAt(f64, part, slices, key), FlatOf(f64, part, slices), key, onStored);
        MergedBlockOfAll(ContractsAt(f64, part, slices, key), FlatOf(f64, part, slices), rows, onStored, key);
      }
    }
  }

  lemma SameLookups(a: FlatRows, b: FlatRows)
    requires forall rowKey :: Lookup(a, rowKey) == Lookup(b, rowKey)
    ensures a == b
  {
    forall rowKey
      ensures rowKey in a <==> rowKey in b
      ensures rowKey in a ==> a[rowKey] == b[rowKey]
    {
      assert Lookup(a, rowKey) == Lookup(b, rowKey);
    }
  }

  lemma MergeEnds(f64: DoubleCodec, part: Part, slices: map<int, StoredSlice>, flat: FlatRows, rows: seq<KeyedRow>, onStored: OnStored)
    requires StoredWell(f64, part, slices) && ContractRows(rows)
    requires forall key :: IsMergedBlock(ContractsAt(f64, part, slices, key), flat, rows, onStored, key)
    ensures FlatOf(f64, part, slices) == Merged(flat, rows, onStored)
  {
    hide MergedAt, WellKept, FlatOf, ContractsAt, Merged, StoredWell;
    forall rowKey
      ensures Lookup(FlatOf(f64, part, slices), rowKey) == Lookup(Merged(flat, rows, onStored), rowKey)
    {
      var m := ContractsAt(f64, part, slices, rowKey.key);
      assert IsMergedBlock(m, flat, rows, onStored, rowKey.key);
      assert ValueOf(m, rowKey.contract) == MergedAt(flat, rows, onStored, RowKey(rowKey.key, rowKey.contract));
    }
    SameLookups(FlatOf(f64, part, slices), Merged(flat, rows, onStored));
  }

  ghost function BlockKeys(contracts: set<Contract>, key: int): set<RowKey> {
    set c | c in contracts :: RowKey(key, c)
  }

  lemma {:induction false} BlockSize(contracts: set<Contract>, key: int)
    ensures |BlockKeys(contracts, key)| == |contracts|
  {
    if contracts != {} {
      var c :| c in contracts;
      BlockSize(contracts - {c}, key);
      assert BlockKeys(contracts, key) == BlockKeys(contracts - {c}, key) + {RowKey(key, c)};
    }
  }

  ghost function OtherKeys(flat: FlatRows, key: int): set<RowKey> {
    set rowKey | rowKey in flat && rowKey.key != key
  }

  lemma FlatSize(f64: DoubleCodec, part: Part, slices: map<int, StoredSlice>, key: int)
    requires StoredWell(f64, part, slices)
    ensures |FlatOf(f64, part, slices)| == |OtherKeys(FlatOf(f64, part, slices), key)| + |ContractsAt(f64, part, slices, key)|
  {
    hide FlatOf, ContractsAt, StoredWell;
    var flat, m := FlatOf(f64, part, slices), ContractsAt(f64, part, slices, key);
    assert flat.Keys == OtherKeys(flat, key) + BlockKeys(m.Keys, key);
    BlockSize(m.Keys, key);
  }

  lemma OtherSlicesStay(f64: DoubleCodec, part: Part, slices: map<int, StoredSlice>, key: int, slice: StoredSlice)
    requires StoredWell(f64, part, slices) && WellKept(f64, part, slice)
    ensures StoredWell(f64, part, slices[key := slice])
    ensures forall other :: other != key ==> ContractsAt(f64, part, slices[key := slice], other) == ContractsAt(f64, part, slices, other)
  {
    hide WellKept, RowsIn, ByContract;
  }

  /** The flat map's size follows the slice written. */
  lemma FlatSizeAfterWrite(f64: DoubleCodec, part: Part, slices: map<int, StoredSlice>, key: int, slice: StoredSlice)
    requires StoredWell(f64, part, slices) && WellKept(f64, part, slice) && StoredWell(f64, part, slices[key := slice])
    ensures |FlatOf(f64, part, slices[key := slice])|
            == |FlatOf(f64, part, slices)| - |ContractsAt(f64, part, slices, key)| + |ContractsAt(f64, part, slices[key := slice], key)|
  {
    hide WellKept, RowsIn, ByContract, FlatOf, StoredWell, ContractsAt;
    OtherSlicesStay(f64, part, slices, key, slice);
    FlatSize(f64, part, slices, key);
    FlatSize(f64, part, slices[key := slice], key);
    var flat, after := FlatOf(f64, part, slices), FlatOf(f64, part, slices[key := slice]);
    forall rowKey: RowKey | rowKey.key != key
      ensures rowKey in after <==> rowKey in flat
    {
      assert ContractsAt(f64, part, slices[key := slice], rowKey.key) == ContractsAt(f64, part, slices, rowKey.key);
    }
    assert OtherKeys(after, key) == OtherKeys(flat, key);
  }

  ghost predicate KeptRows(f64: DoubleCodec, part: Part, rows: map<Contract, Row>) {
    OwnContracts(rows) && forall c :: c in rows ==> PartRow(f64, part, rows[c])
  }

  ghost predicate KeptKeyedRows(f64: DoubleCodec, part: Part, rows: seq<KeyedRow>) {
    forall i :: 0 <= i < |rows| ==> PartRow(f64, part, rows[i].row)
  }

  lemma SortedRowsKept(f64: DoubleCodec, part: Part, rows: map<Contract, Row>)
    requires KeptRows(f64, part, rows)
    ensures PartRows(f64, part, SortedRows(rows)) && Rectangular(SortedRows(rows), |ColumnsOf(part)|)
    ensures RawNumbersAreDoubles(f64, SortedRows(rows), ColumnsOf(part))
  {
    var sorted := SortedRows(rows);
    forall i | 0 <= i < |sorted|
      ensures PartRow(f64, part, sorted[i])
    {
      assert SortedContracts(rows.Keys)[i] in SortedContracts(rows.Keys);
    }
  }

  lemma WrittenRowsRead(f64: DoubleCodec, part: Part, rows: map<Contract, Row>, slice: StoredSlice)
    requires f64.Valid() && KeptRows(f64, part, rows) && Rectangular(SortedRows(rows), |ColumnsOf(part)|)
    requires PackedSlice(f64, SortedRows(rows), ColumnsOf(part)) == Ok(slice.data)
    ensures RowsIn(f64, part, slice) == SortedRows(rows)
  {
    hide PackedSlice, UnpackedSlice, SortedRows, RawNumbersAreDoubles;
    SortedRowsKept(f64, part, rows);
    RoundTrip(f64, SortedRows(rows), ColumnsOf(part));
  }

  lemma SliceWritten(f64: DoubleCodec, part: Part, slices: map<int, StoredSlice>, key: int, slice: StoredSlice)
    requires StoredWell(f64, part, slices) && WellKept(f64, part, slice)
    ensures StoredWell(f64, part, slices[key := slice]) && ContractsAt(f64, part, slices[key := slice], key) == ByContract(RowsIn(f64, part, slice))
  {
    hide WellKept;
  }

  lemma WrittenSliceKept(f64: DoubleCodec, part: Part, rows: map<Contract, Row>, slice: StoredSlice)
    requires f64.Valid() && KeptRows(f64, part, rows) && rows != map[] && Rectangular(SortedRows(rows), |ColumnsOf(part)|)
    requires PackedSlice(f64, SortedRows(rows), ColumnsOf(part)) == Ok(slice.data)
    requires slice.callCount == CallsIn(SortedRows(rows)) && slice.callCount + slice.putCount == |SortedRows(rows)|
    requires PartRows(f64, part, SortedRows(rows))
    requires slice.flag == exists i :: 0 <= i < |SortedRows(rows)| && Flagged(part, SortedRows(rows)[i])
    ensures WellKept(f64, part, slice) && ByContract(RowsIn(f64, part, slice)) == rows
  {
    hide PackedSlice, RowsIn, SortedRows, ByContract, Flagged, CallsIn, InContractOrder, PartRow;
    WrittenRowsRead(f64, part, rows, slice);
    ByContractOfSorted(rows);
  }
}
