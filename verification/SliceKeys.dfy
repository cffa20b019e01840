/** The keys of the slice tables: day, look and days to expiry in one integer. */
module SliceKeys {

  const TEN_O_CLOCK_LOOK_MINUTE := 600
  const DAILY_SLICE_LOOK_MINUTE := 0

  function SliceKey(dayNumber: int, lookMinute: int, daysToExpiry: int): int {
    dayNumber * 4294967296 + lookMinute * 65536 + daysToExpiry
  }

  function DayNumberOfKey(key: int): int {
    key / 4294967296
  }

  function LookMinuteOfKey(key: int): int {
    key / 65536 % 65536
  }

  function DaysToExpiryOfKey(key: int): int {
    key % 65536
  }

  /** A look and a distance the key keeps apart from its neighbours. */
  predicate KeyFields(lookMinute: int, daysToExpiry: int) {
    0 <= lookMinute < 65536 && 0 <= daysToExpiry < 65536
  }

  /** The three inverses give a key's fields back exactly when both fit 16 bits. */
  lemma KeyFieldsReadBack(dayNumber: int, lookMinute: int, daysToExpiry: int)
    ensures var key := SliceKey(dayNumber, lookMinute, daysToExpiry);
            DayNumberOfKey(key) == dayNumber && LookMinuteOfKey(key) == lookMinute && DaysToExpiryOfKey(key) == daysToExpiry
            <==> KeyFields(lookMinute, daysToExpiry)
  {
    var key := SliceKey(dayNumber, lookMinute, daysToExpiry);
    if KeyFields(lookMinute, daysToExpiry) {
      assert key / 65536 == dayNumber * 65536 + lookMinute;
      assert key / 4294967296 == dayNumber;
    }
  }

  /** Every integer is one key: its three fields give it back. */
  lemma KeyOfItsFields(key: int)
    ensures KeyFields(LookMinuteOfKey(key), DaysToExpiryOfKey(key))
    ensures SliceKey(DayNumberOfKey(key), LookMinuteOfKey(key), DaysToExpiryOfKey(key)) == key
  {
    assert key / 65536 / 65536 == key / 4294967296;
  }

  /** Keys are in the order of day, then look, then expiry. */
  lemma KeyOrder(a: int, b: int)
    ensures a < b <==>
      || DayNumberOfKey(a) < DayNumberOfKey(b)
      || (DayNumberOfKey(a) == DayNumberOfKey(b) && LookMinuteOfKey(a) < LookMinuteOfKey(b))
      || (DayNumberOfKey(a) == DayNumberOfKey(b) && LookMinuteOfKey(a) == LookMinuteOfKey(b) && DaysToExpiryOfKey(a) < DaysToExpiryOfKey(b))
  {
    KeyOfItsFields(a);
    KeyOfItsFields(b);
  }

  /** day_key_range: the first and last key of a day. */
  function DayKeyRange(dayNumber: int): (int, int) {
    (SliceKey(dayNumber, 0, 0), SliceKey(dayNumber + 1, 0, 0) - 1)
  }

  lemma DayKeyRangeIsTheDay(dayNumber: int, key: int)
    ensures DayKeyRange(dayNumber).0 <= key <= DayKeyRange(dayNumber).1 <==> DayNumberOfKey(key) == dayNumber
  {}

  predicate Ascending(keys: seq<int>) {
    forall i, j :: 0 <= i < j < |keys| ==> keys[i] < keys[j]
  }

  lemma AscendingTail(keys: seq<int>, i: nat)
    requires Ascending(keys) && i < |keys|
    ensures keys[i..] == [keys[i]] + keys[i + 1..] && keys[i] !in keys[i + 1..]
  {}

  /** sorted(…) of distinct keys, one more put in its place. */
  function WithKey(keys: seq<int>, key: int): (sorted: seq<int>)
    requires Ascending(keys)
    ensures Ascending(sorted)
    ensures forall k :: k in sorted <==> k == key || k in keys
  {
    if keys == [] || key < keys[0] then [key] + keys
    else if key == keys[0] then keys
    else
      var rest := WithKey(keys[1..], key);
      assert forall i :: 0 <= i < |rest| ==> rest[i] in rest && (rest[i] == key || rest[i] in keys[1..]);
      [keys[0]] + rest
  }

  /** The ascending keys outside a range. */
  function KeysOutside(keys: seq<int>, first: int, last: int): (left: seq<int>)
    requires Ascending(keys)
    ensures Ascending(left)
    ensures forall k :: k in left <==> k in keys && !(first <= k <= last)
  {
    if keys == [] then [] else
    var rest := KeysOutside(keys[1..], first, last);
    assert forall i :: 0 <= i < |rest| ==> rest[i] in rest && rest[i] in keys[1..];
    if first <= keys[0] <= last then rest else [keys[0]] + rest
  }
}
