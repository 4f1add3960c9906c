/** The two tables of the tracker and the facts about ids they rely on.

    Both tables have an INTEGER PRIMARY KEY `id` that the storage layer
    assigns on insert. `Transaction.category` names a category only by its
    text: there is no foreign key, and category names need not be unique. */
module Records {
  import opened Dates

  /** The two values the type radio buttons write. The column itself holds
      any string; the rest of the program compares against these two. */
  const INCOME: string := "income"
  const EXPENSE: string := "expense"

  datatype Transaction = Transaction(
    id: int,
    date: Date,
    amount: real,
    category: string,
    transactionType: string,
    description: string)

  datatype Category = Category(id: int, name: string, categoryType: string)

  /** The whole persistent state: both tables in insertion (rowid) order. */
  datatype Store = Store(transactions: seq<Transaction>, categories: seq<Category>)

  function TransactionId(t: Transaction): int {
    t.id
  }

  function CategoryId(c: Category): int {
    c.id
  }

  /** No two rows share a key. */
  ghost predicate UniqueKeys<T>(rows: seq<T>, key: T -> int) {
    forall i, j :: 0 <= i < j < |rows| ==> key(rows[i]) != key(rows[j])
  }

  /** What the schema and the date parser guarantee of every stored state:
      primary keys are unique and every stored date is a calendar date. */
  ghost predicate Wellformed(s: Store) {
    && UniqueKeys(s.transactions, TransactionId)
    && UniqueKeys(s.categories, CategoryId)
    && forall i :: 0 <= i < |s.transactions| ==> ValidDate(s.transactions[i].date)
  }

  /** The largest key in a non-empty table. */
  function LargestKey<T>(rows: seq<T>, key: T -> int): (r: int)
    requires |rows| > 0
    ensures forall i :: 0 <= i < |rows| ==> key(rows[i]) <= r
    ensures exists i :: 0 <= i < |rows| && key(rows[i]) == r
    decreases |rows|
  {
    if |rows| == 1 then key(rows[0])
    else
      var rest := LargestKey(rows[1..], key);
      if key(rows[0]) >= rest then key(rows[0])
      else rest
  }

  /** The id a new row receives: one more than the largest id in the table,
      and 1 in an empty table, the rule SQLite follows for an INTEGER PRIMARY
      KEY declared without AUTOINCREMENT. */
  function FreshKey<T>(rows: seq<T>, key: T -> int): (r: int)
    ensures forall i :: 0 <= i < |rows| ==> key(rows[i]) < r
  {
    if |rows| == 0 then 1 else LargestKey(rows, key) + 1
  }

  /** Appending a row under a fresh key keeps the keys unique. */
  lemma AppendFreshKeepsUnique<T>(rows: seq<T>, key: T -> int, row: T)
    requires key(row) == FreshKey(rows, key)
    ensures UniqueKeys(rows, key) ==> UniqueKeys(rows + [row], key)
  {
  }

  /** A table with one more row in front has unique keys exactly when its
      tail has and no tail row repeats the new key. */
  lemma UniqueKeysCons<T>(h: T, rest: seq<T>, key: T -> int)
    ensures UniqueKeys([h] + rest, key) <==>
              UniqueKeys(rest, key) && forall j :: 0 <= j < |rest| ==> key(rest[j]) != key(h)
  {
    var r := [h] + rest;
    assert forall j :: 0 <= j < |rest| ==> r[j + 1] == rest[j];
    if UniqueKeys(rest, key) && forall j :: 0 <= j < |rest| ==> key(rest[j]) != key(h) {
      forall i, j | 0 <= i < j < |r| ensures key(r[i]) != key(r[j]) {
        if i > 0 {
          assert key(rest[i - 1]) != key(rest[j - 1]);
        }
      }
    }
    if UniqueKeys(r, key) {
      forall i, j | 0 <= i < j < |rest| ensures key(rest[i]) != key(rest[j]) {
        assert key(r[i + 1]) != key(r[j + 1]);
      }
      forall j | 0 <= j < |rest| ensures key(rest[j]) != key(h) {
        assert key(r[0]) != key(r[j + 1]);
      }
    }
  }

  /** Whether some row carries the key `id`. */
  predicate HasKey<T>(rows: seq<T>, key: T -> int, id: int) {
    exists i :: 0 <= i < |rows| && key(rows[i]) == id
  }

  /** `idx` lists, in increasing order, exactly the positions of the rows
      whose key is not `id`. */
  ghost predicate KeptPositions<T>(rows: seq<T>, key: T -> int, id: int, idx: seq<int>) {
    && (forall k :: 0 <= k < |idx| ==> 0 <= idx[k] < |rows| && key(rows[idx[k]]) != id)
    && (forall k, l :: 0 <= k < l < |idx| ==> idx[k] < idx[l])
    && (forall i :: 0 <= i < |rows| && key(rows[i]) != id ==> i in idx)
  }

  /** The positions from `from` on whose key is not `id`. */
  function KeptFrom<T>(rows: seq<T>, key: T -> int, id: int, from: nat): (idx: seq<int>)
    requires from <= |rows|
    ensures forall k :: 0 <= k < |idx| ==> from <= idx[k] < |rows| && key(rows[idx[k]]) != id
    ensures forall k, l :: 0 <= k < l < |idx| ==> idx[k] < idx[l]
    ensures forall i :: from <= i < |rows| && key(rows[i]) != id ==> i in idx
    decreases |rows| - from
  {
    if from == |rows| then []
    else
      var rest := KeptFrom(rows, key, id, from + 1);
      if key(rows[from]) != id then [from] + rest else rest
  }

  /** The rows from `from` on whose key is not `id`, in their order. */
  function RemoveFrom<T>(rows: seq<T>, key: T -> int, id: int, from: nat): (r: seq<T>)
    requires from <= |rows|
    ensures |r| == |KeptFrom(rows, key, id, from)|
    ensures forall k :: 0 <= k < |r| ==> r[k] == rows[KeptFrom(rows, key, id, from)[k]]
    decreases |rows| - from
  {
    if from == |rows| then []
    else
      var rest := RemoveFrom(rows, key, id, from + 1);
      if key(rows[from]) != id then [rows[from]] + rest else rest
  }

  /** `DELETE ... WHERE id = :id`: the rows whose key differs, in their order. */
  function RemoveKey<T(!new)>(rows: seq<T>, key: T -> int, id: int): (r: seq<T>)
    ensures forall x :: x in r <==> x in rows && key(x) != id
    ensures !HasKey(rows, key, id) ==> r == rows
    ensures UniqueKeys(rows, key) ==> UniqueKeys(r, key)
    ensures UniqueKeys(rows, key) ==> |r| == |rows| - (if HasKey(rows, key, id) then 1 else 0)
    decreases |rows|
  {
    if |rows| == 0 then []
    else
      var h, tail := rows[0], rows[1..];
      var rest := RemoveKey(tail, key, id);
      assert rows == [h] + tail;
      assert forall i :: 1 <= i < |rows| ==> rows[i] == tail[i - 1];
      assert HasKey(rows, key, id) <==> key(h) == id || HasKey(tail, key, id) by {
        if HasKey(tail, key, id) {
          var i :| 0 <= i < |tail| && key(tail[i]) == id;
          assert key(rows[i + 1]) == id;
        }
      }
      UniqueKeysCons(h, tail, key);
      if key(h) == id then
        assert UniqueKeys(rows, key) ==> !HasKey(tail, key, id);
        rest
      else
        var r := [h] + rest;
        UniqueKeysCons(h, rest, key);
        assert UniqueKeys(rows, key) ==> forall j :: 0 <= j < |rest| ==> key(rest[j]) != key(h) by {
          if UniqueKeys(rows, key) {
            forall j | 0 <= j < |rest| ensures key(rest[j]) != key(h) {
              assert rest[j] in tail;
            }
          }
        }
        assert forall x :: x in r <==> x == h || x in rest;
        r
  }

  /** The position scan from `from` deletes exactly as `RemoveKey` does on
      the rows from `from` on. */
  lemma {:induction false} RemoveFromIsRemoveKey<T(!new)>(rows: seq<T>, key: T -> int, id: int, from: nat)
    requires from <= |rows|
    ensures RemoveFrom(rows, key, id, from) == RemoveKey(rows[from..], key, id)
    decreases |rows| - from
  {
    if from < |rows| {
      RemoveFromIsRemoveKey(rows, key, id, from + 1);
      assert rows[from..][0] == rows[from];
      assert rows[from..][1..] == rows[from + 1..];
    }
  }

  /** The rows a deletion keeps stay in their table order: the result lists,
      one by one, the rows at the increasing positions whose key differs. */
  lemma RemoveKeyKeepsOrder<T(!new)>(rows: seq<T>, key: T -> int, id: int)
    ensures exists idx :: KeptPositions(rows, key, id, idx)
              && |idx| == |RemoveKey(rows, key, id)|
              && forall k :: 0 <= k < |idx| ==> RemoveKey(rows, key, id)[k] == rows[idx[k]]
  {
    var idx := KeptFrom(rows, key, id, 0);
    RemoveFromIsRemoveKey(rows, key, id, 0);
    assert rows[0..] == rows;
    assert KeptPositions(rows, key, id, idx);
  }
}
