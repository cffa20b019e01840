/** One option part as the flat map its slice table stands for: a row for each slice key and contract. */
module FlatPart {
  import opened Wrappers
  import opened SliceCodec
  import opened SliceKeys

  /** A contract of a slice; `put` is false for a Call. */
  datatype Contract = Contract(strike: real, put: bool)

  /** A part's row: a strike, a right, then the part's other values. */
  predicate ContractRow(row: Row) {
    |row| >= 2 && row[0].Number? && (row[1] == Text("C") || row[1] == Text("P"))
  }

  function ContractOf(row: Row): Contract
    requires ContractRow(row)
  {
    Contract(row[0].value, row[1] == Text("P"))
  }

  /** A row to store and the slice it belongs to. */
  datatype KeyedRow = KeyedRow(key: int, row: Row)

  /** What a stored row is found by. */
  datatype RowKey = RowKey(key: int, contract: Contract)

  type FlatRows = map<RowKey, Row>

  predicate ContractRows(rows: seq<KeyedRow>) {
    forall i :: 0 <= i < |rows| ==> ContractRow(rows[i].row)
  }

  function RowKeyOf(keyed: KeyedRow): RowKey
    requires ContractRow(keyed.row)
  {
    RowKey(keyed.key, ContractOf(keyed.row))
  }

  predicate Among(rows: seq<KeyedRow>, rowKey: RowKey)
    requires ContractRows(rows)
  {
    exists i :: 0 <= i < |rows| && RowKeyOf(rows[i]) == rowKey
  }

  ghost function RowKeysOf(rows: seq<KeyedRow>): set<RowKey>
    requires ContractRows(rows)
  {
    set i | 0 <= i < |rows| :: RowKeyOf(rows[i])
  }

  /** The first row given for a contract. */
  function FirstOf(rows: seq<KeyedRow>, rowKey: RowKey): Row
    requires ContractRows(rows) && Among(rows, rowKey)
  {
    var last := |rows| - 1;
    if Among(rows[..last], rowKey) then FirstOf(rows[..last], rowKey) else rows[last].row
  }

  /** The last row given for a contract. */
  function LastOf(rows: seq<KeyedRow>, rowKey: RowKey): Row
    requires ContractRows(rows) && Among(rows, rowKey)
  {
    var last := |rows| - 1;
    if RowKeyOf(rows[last]) == rowKey then rows[last].row else
    AmongButLast(rows, rowKey);
    LastOf(rows[..last], rowKey)
  }

  lemma AmongButLast(rows: seq<KeyedRow>, rowKey: RowKey)
    requires ContractRows(rows) && Among(rows, rowKey) && RowKeyOf(rows[|rows| - 1]) != rowKey
    ensures ContractRows(rows[..|rows| - 1]) && Among(rows[..|rows| - 1], rowKey)
  {
    var i :| 0 <= i < |rows| && RowKeyOf(rows[i]) == rowKey;
    assert rows[..|rows| - 1][i] == rows[i];
  }

  /** What merging does with a contract stored already, or given twice. */
  datatype OnStored = Fail | Keep | Replace

  /** The rows cannot be added as new ones: one is stored already, or is given twice. */
  ghost predicate Clashes(flat: FlatRows, rows: seq<KeyedRow>)
    requires ContractRows(rows)
  {
    || (exists i :: 0 <= i < |rows| && RowKeyOf(rows[i]) in flat)
    || (exists i, j :: 0 <= i < j < |rows| && RowKeyOf(rows[i]) == RowKeyOf(rows[j]))
  }

  /** What a contract's row is after merging: the stored rows win (Keep), the given rows win (Replace), or nothing is to choose (Fail). */
  function MergedAt(flat: FlatRows, rows: seq<KeyedRow>, onStored: OnStored, rowKey: RowKey): Option<Row>
    requires ContractRows(rows)
  {
    if !Among(rows, rowKey) then (if rowKey in flat then Some(flat[rowKey]) else None)
    else if onStored == Replace then Some(LastOf(rows, rowKey))
    else if rowKey in flat then Some(flat[rowKey])
    else Some(FirstOf(rows, rowKey))
  }

  /** The flat map after merging the rows. */
  ghost function Merged(flat: FlatRows, rows: seq<KeyedRow>, onStored: OnStored): (merged: FlatRows)
    requires ContractRows(rows)
    ensures forall rowKey :: rowKey in merged <==> MergedAt(flat, rows, onStored, rowKey).Some?
    ensures forall rowKey :: rowKey in merged ==> MergedAt(flat, rows, onStored, rowKey) == Some(merged[rowKey])
  {
    map rowKey | rowKey in flat.Keys + RowKeysOf(rows) :: MergedAt(flat, rows, onStored, rowKey).value
  }

  function Lookup(flat: FlatRows, rowKey: RowKey): Option<Row> {
    if rowKey in flat then Some(flat[rowKey]) else None
  }

  /** The stored rows of one day. */
  ghost function DayKeys(flat: FlatRows, day: int): set<RowKey> {
    set rowKey | rowKey in flat && DayNumberOfKey(rowKey.key) == day
  }

  /** The part with one day's rows deleted. */
  ghost function WithoutDay(flat: FlatRows, day: int): FlatRows {
    map rowKey | rowKey in flat && DayNumberOfKey(rowKey.key) != day :: flat[rowKey]
  }

  // ---------------------------------------------------------------------------------------
  // One more row, one slice's rows

  lemma AmongAppended(rows: seq<KeyedRow>, row: KeyedRow, rowKey: RowKey)
    requires ContractRows(rows) && ContractRow(row.row)
    ensures ContractRows(rows + [row])
    ensures Among(rows + [row], rowKey) <==> Among(rows, rowKey) || RowKeyOf(row) == rowKey
  {
    var all := rows + [row];
    if Among(rows, rowKey) {
      var i :| 0 <= i < |rows| && RowKeyOf(rows[i]) == rowKey;
      assert RowKeyOf(all[i]) == rowKey;
    }
    if RowKeyOf(row) == rowKey {
      assert RowKeyOf(all[|rows|]) == rowKey;
    }
  }

  /** Merging one more row: it is stored when its contract is new or it replaces, and nothing else changes. */
  lemma MergedAppended(flat: FlatRows, rows: seq<KeyedRow>, row: KeyedRow, onStored: OnStored, rowKey: RowKey)
    requires ContractRows(rows) && ContractRow(row.row)
    ensures ContractRows(rows + [row])
    ensures MergedAt(flat, rows + [row], onStored, rowKey) ==
            if rowKey == RowKeyOf(row) && (onStored == Replace || MergedAt(flat, rows, onStored, rowKey) == None) then Some(row.row)
            else MergedAt(flat, rows, onStored, rowKey)
  {
    AmongAppended(rows, row, rowKey);
    assert (rows + [row])[..|rows|] == rows;
  }

  lemma ClashesAppended(flat: FlatRows, rows: seq<KeyedRow>, row: KeyedRow)
    requires ContractRows(rows) && ContractRow(row.row)
    ensures ContractRows(rows + [row])
    ensures Clashes(flat, rows + [row]) <==> Clashes(flat, rows) || MergedAt(flat, rows, Fail, RowKeyOf(row)).Some?
  {
    var all := rows + [row];
    if Clashes(flat, rows) {
      assert forall i :: 0 <= i < |rows| ==> all[i] == rows[i];
    } else if MergedAt(flat, rows, Fail, RowKeyOf(row)).Some? {
      assert all[|rows|] == row;
      if Among(rows, RowKeyOf(row)) {
        var i :| 0 <= i < |rows| && RowKeyOf(rows[i]) == RowKeyOf(row);
        assert RowKeyOf(all[i]) == RowKeyOf(all[|rows|]);
      }
    }
  }

  /** The rows of one slice, in the order given. */
  function RowsOfKey(rows: seq<KeyedRow>, key: int): (own: seq<KeyedRow>)
    requires ContractRows(rows)
    ensures ContractRows(own)
    ensures forall i :: 0 <= i < |own| ==> own[i].key == key
  {
    if rows == [] then [] else
    var last := |rows| - 1;
    var before := RowsOfKey(rows[..last], key);
    if rows[last].key == key then before + [rows[last]] else before
  }

  lemma {:induction false} NoRowsOfKey(rows: seq<KeyedRow>, key: int)
    requires ContractRows(rows)
    ensures RowsOfKey(rows, key) != [] <==> exists i :: 0 <= i < |rows| && rows[i].key == key
  {
    if rows != [] {
      var last := |rows| - 1;
      NoRowsOfKey(rows[..last], key);
      assert forall i :: 0 <= i < last ==> rows[..last][i] == rows[i];
    }
  }

  /** A slice is merged by its own rows alone. */
  lemma {:induction false} MergedByKey(flat: FlatRows, rows: seq<KeyedRow>, onStored: OnStored, rowKey: RowKey)
    requires ContractRows(rows)
    ensures MergedAt(flat, RowsOfKey(rows, rowKey.key), onStored, rowKey) == MergedAt(flat, rows, onStored, rowKey)
  {
    hide MergedAt;
    if rows == [] {
      assert RowsOfKey(rows, rowKey.key) == rows;
    } else {
      var last := |rows| - 1;
      MergedByKey(flat, rows[..last], onStored, rowKey);
      assert rows[..last] + [rows[last]] == rows;
      MergedAppended(flat, rows[..last], rows[last], onStored, rowKey);
      if rows[last].key == rowKey.key {
        MergedAppended(flat, RowsOfKey(rows[..last], rowKey.key), rows[last], onStored, rowKey);
      }
    }
  }

  /** The rows clash exactly when those of some slice do. */
  lemma {:induction false} ClashesByKey(flat: FlatRows, rows: seq<KeyedRow>)
    requires ContractRows(rows)
    ensures Clashes(flat, rows) <==> exists key: int :: Clashes(flat, RowsOfKey(rows, key))
  {
    hide MergedAt;
    if rows == [] {
      assert forall key: int :: RowsOfKey(rows, key) == [];
    } else {
      var last := |rows| - 1;
      var row := rows[last];
      ClashesByKey(flat, rows[..last]);
      assert rows[..last] + [row] == rows;
      ClashesAppended(flat, rows[..last], row);
      MergedByKey(flat, rows[..last], Fail, RowKeyOf(row));
      ClashesAppended(flat, RowsOfKey(rows[..last], row.key), row);
      hide Clashes;
      if Clashes(flat, rows[..last]) {
        var key: int :| Clashes(flat, RowsOfKey(rows[..last], key));
        assert Clashes(flat, RowsOfKey(rows, key));
      } else if MergedAt(flat, rows[..last], Fail, RowKeyOf(row)).Some? {
        assert Clashes(flat, RowsOfKey(rows, row.key));
      } else {
        assert !Clashes(flat, RowsOfKey(rows, row.key));
        forall key: int
          ensures !Clashes(flat, RowsOfKey(rows, key))
        {
          assert !Clashes(flat, RowsOfKey(rows[..last], key));
        }
      }
    }
  }
}
