/** The has_many collections that `new` and `edit` seed before the form
    is shown (repeat_ons keyed by days_of_week_id, notification_events
    keyed by notification_id): find_or_initialize_by on each key, and the
    ordering of repeat_ons by weekday for display. */
module Associations {
  import opened EventTypes

  /** One child record of an association, identified within it by its
      key; `id` is None for a record initialized in memory and not saved. */
  datatype AssociationRow = AssociationRow(key: int, id: Option<int>)

  /** How many rows of the collection carry `key`. */
  function CountKey(rows: seq<AssociationRow>, key: int): nat
  {
    if rows == [] then 0 else (if rows[0].key == key then 1 else 0) + CountKey(rows[1..], key)
  }

  /** No key occurs twice. */
  ghost predicate UniqueKeys(rows: seq<AssociationRow>)
  {
    forall k :: CountKey(rows, k) <= 1
  }

  /** The position of the first row carrying `key`, if any. */
  function FindByKey(rows: seq<AssociationRow>, key: int): (r: Option<nat>)
    ensures r.Some? ==> r.value < |rows| && rows[r.value].key == key &&
                        forall j :: 0 <= j < r.value ==> rows[j].key != key
    ensures r.None? <==> forall j :: 0 <= j < |rows| ==> rows[j].key != key
  {
    if rows == [] then None
    else if rows[0].key == key then Some(0)
    else match FindByKey(rows[1..], key)
      case None => None
      case Some(j) => Some(j + 1)
  }

  /** find_or_initialize_by: the row found, or a new unsaved row built
      into the collection, and the collection afterwards. */
  function FindOrInitialize(rows: seq<AssociationRow>, key: int): (r: (AssociationRow, seq<AssociationRow>))
    ensures r.0.key == key
    ensures (exists j :: 0 <= j < |rows| && rows[j].key == key) ==> r.1 == rows && r.0 in rows
    ensures (forall j :: 0 <= j < |rows| ==> rows[j].key != key) ==>
              r.0 == AssociationRow(key, None) && r.1 == rows + [r.0]
  {
    match FindByKey(rows, key)
    case Some(i) => (rows[i], rows)
    case None => (AssociationRow(key, None), rows + [AssociationRow(key, None)])
  }

  /** The collection after find_or_initialize_by has run on every key of
      `keys`, in order. */
  function SeedAll(rows: seq<AssociationRow>, keys: seq<int>): seq<AssociationRow>
  {
    if keys == [] then rows
    else FindOrInitialize(SeedAll(rows, keys[..|keys| - 1]), keys[|keys| - 1]).1
  }

  lemma {:induction false} CountKeyAppend(rows: seq<AssociationRow>, x: AssociationRow, key: int)
    ensures CountKey(rows + [x], key) == CountKey(rows, key) + (if x.key == key then 1 else 0)
  {
    if rows != [] {
      assert (rows + [x])[1..] == rows[1..] + [x];
      CountKeyAppend(rows[1..], x, key);
    }
  }

  lemma {:induction false} CountKeyZero(rows: seq<AssociationRow>, key: int)
    ensures CountKey(rows, key) == 0 <==> forall j :: 0 <= j < |rows| ==> rows[j].key != key
  {
    if rows != [] {
      CountKeyZero(rows[1..], key);
      assert forall j :: 1 <= j < |rows| ==> rows[j] == rows[1..][j - 1];
    }
  }

  /** After seeding, every seeded key occurs at least once, a key that
      already occurred keeps its count, and no other key changes. */
  lemma {:induction false} SeedAllCount(rows: seq<AssociationRow>, keys: seq<int>, key: int)
    ensures CountKey(SeedAll(rows, keys), key) ==
              if key in keys && CountKey(rows, key) == 0 then 1 else CountKey(rows, key)
  {
    if keys != [] {
      var init, last := keys[..|keys| - 1], keys[|keys| - 1];
      assert keys == init + [last];
      var before := SeedAll(rows, init);
      SeedAllCount(rows, init, key);
      CountKeyZero(before, last);
      CountKeyZero(before, key);
      if forall j :: 0 <= j < |before| ==> before[j].key != last {
        CountKeyAppend(before, AssociationRow(last, None), key);
      }
    }
  }

  /** Seeding keeps every existing row, in place, and only appends
      unsaved rows for seeded keys. */
  lemma {:induction false} SeedAllKeepsExisting(rows: seq<AssociationRow>, keys: seq<int>)
    ensures |rows| <= |SeedAll(rows, keys)|
    ensures SeedAll(rows, keys)[..|rows|] == rows
    ensures forall i :: |rows| <= i < |SeedAll(rows, keys)| ==>
              SeedAll(rows, keys)[i].id.None? && SeedAll(rows, keys)[i].key in keys
  {
    if keys != [] {
      var init, last := keys[..|keys| - 1], keys[|keys| - 1];
      SeedAllKeepsExisting(rows, init);
      var before := SeedAll(rows, init);
      assert forall k :: k in init ==> k in keys;
      if forall j :: 0 <= j < |before| ==> before[j].key != last {
        assert SeedAll(rows, keys) == before + [AssociationRow(last, None)];
      }
    }
  }

  /** With no duplicate among the existing rows, seeding leaves exactly one
      row per seeded key and still no duplicate. */
  lemma SeedAllUnique(rows: seq<AssociationRow>, keys: seq<int>)
    requires UniqueKeys(rows)
    ensures UniqueKeys(SeedAll(rows, keys))
    ensures forall k :: k in keys ==> CountKey(SeedAll(rows, keys), k) == 1
  {
    forall k ensures CountKey(SeedAll(rows, keys), k) <= 1 &&
                     (k in keys ==> CountKey(SeedAll(rows, keys), k) == 1) {
      SeedAllCount(rows, keys, k);
      assert CountKey(rows, k) <= 1;
    }
  }

  /** The rows are in ascending order of key. */
  ghost predicate SortedByKey(rows: seq<AssociationRow>)
  {
    forall i, j :: 0 <= i < j < |rows| ==> rows[i].key <= rows[j].key
  }

  function InsertByKey(x: AssociationRow, rows: seq<AssociationRow>): (r: seq<AssociationRow>)
    requires SortedByKey(rows)
    ensures SortedByKey(r)
    ensures multiset(r) == multiset(rows) + multiset{x}
  {
    if rows == [] then [x]
    else if x.key <= rows[0].key then [x] + rows
    else
      var rest := InsertByKey(x, rows[1..]);
      assert rows == [rows[0]] + rows[1..];
      assert forall i :: 0 <= i < |rest| ==> rows[0].key <= rest[i].key by {
        forall i | 0 <= i < |rest| ensures rows[0].key <= rest[i].key {
          assert rest[i] in multiset(rows[1..]) + multiset{x};
        }
      }
      [rows[0]] + rest
  }

  lemma {:induction false} InsertByKeyCount(x: AssociationRow, rows: seq<AssociationRow>, key: int)
    requires SortedByKey(rows)
    ensures CountKey(InsertByKey(x, rows), key) == CountKey(rows, key) + (if x.key == key then 1 else 0)
  {
    if rows == [] {
    } else if x.key <= rows[0].key {
      assert ([x] + rows)[1..] == rows;
    } else {
      InsertByKeyCount(x, rows[1..], key);
      assert ([rows[0]] + InsertByKey(x, rows[1..]))[1..] == InsertByKey(x, rows[1..]);
    }
  }

  /** `sort { |a, b| a.key <=> b.key }`: the same rows, in ascending
      order of key. */
  function SortByKey(rows: seq<AssociationRow>): (r: seq<AssociationRow>)
    ensures SortedByKey(r)
    ensures multiset(r) == multiset(rows)
  {
    if rows == [] then []
    else
      assert rows == [rows[0]] + rows[1..];
      InsertByKey(rows[0], SortByKey(rows[1..]))
  }

  /** Sorting neither adds nor drops a row of any key. */
  lemma {:induction false} SortByKeyCount(rows: seq<AssociationRow>, key: int)
    ensures CountKey(SortByKey(rows), key) == CountKey(rows, key)
  {
    if rows != [] {
      SortByKeyCount(rows[1..], key);
      InsertByKeyCount(rows[0], SortByKey(rows[1..]), key);
    }
  }

  lemma {:induction false} EqualKeysCountTwice(rows: seq<AssociationRow>, i: nat, j: nat)
    requires i < j < |rows| && rows[i].key == rows[j].key
    ensures CountKey(rows, rows[i].key) >= 2
  {
    var key := rows[i].key;
    if i == 0 {
      CountKeyZero(rows[1..], key);
      assert rows[1..][j - 1].key == key;
    } else {
      EqualKeysCountTwice(rows[1..], i - 1, j - 1);
    }
  }

  /** The repeat_ons shown by `new` and `edit`: one row per weekday,
      strictly ascending by weekday, when the stored rows had no
      duplicate weekday. */
  lemma SeededViewOnePerKey(rows: seq<AssociationRow>, keys: seq<int>)
    requires UniqueKeys(rows)
    ensures forall k :: k in keys ==> CountKey(SortByKey(SeedAll(rows, keys)), k) == 1
    ensures forall i, j :: 0 <= i < j < |SortByKey(SeedAll(rows, keys))| ==>
              SortByKey(SeedAll(rows, keys))[i].key < SortByKey(SeedAll(rows, keys))[j].key
  {
    var seeded := SeedAll(rows, keys);
    var view := SortByKey(seeded);
    SeedAllUnique(rows, keys);
    forall k | k in keys ensures CountKey(view, k) == 1 {
      SortByKeyCount(seeded, k);
    }
    forall i, j | 0 <= i < j < |view| ensures view[i].key < view[j].key {
      SortByKeyCount(seeded, view[i].key);
      if view[i].key == view[j].key {
        EqualKeysCountTwice(view, i, j);
      }
    }
  }
}
