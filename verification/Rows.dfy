/** What an SQL query does with the rows it selects: order them and take the first.

A query is a finite set of row keys and an order on them. The order is a strict total order on
the selected rows because every ordered query in the repository ends with a unique column. */
module Rows {

  datatype Option<+T> = None | Some(value: T)

  ghost predicate StrictOrder<T(!new)>(rows: set<T>, before: (T, T) -> bool) {
    && (forall a | a in rows :: !before(a, a))
    && (forall a, b | a in rows && b in rows && a != b :: before(a, b) || before(b, a))
    && (forall a, b, c | a in rows && b in rows && c in rows && before(a, b) && before(b, c) :: before(a, c))
  }

  predicate IsFirst<T(==)>(rows: set<T>, before: (T, T) -> bool, row: T) {
    row in rows && forall other | other in rows && other != row :: before(row, other)
  }

  lemma FirstIsUnique<T(!new)>(rows: set<T>, before: (T, T) -> bool, a: T, b: T)
    requires StrictOrder(rows, before) && IsFirst(rows, before, a) && IsFirst(rows, before, b)
    ensures a == b
  {
  }

  lemma {:induction false} FirstExists<T(!new)>(rows: set<T>, before: (T, T) -> bool)
    requires StrictOrder(rows, before) && rows != {}
    ensures exists row :: IsFirst(rows, before, row)
    decreases |rows|
  {
    var any :| any in rows;
    var rest := rows - {any};
    if rest == {} {
      assert rows == {any};
      assert IsFirst(rows, before, any);
    } else {
      FirstExists(rest, before);
      var least :| IsFirst(rest, before, least);
      if before(any, least) {
        assert IsFirst(rows, before, any);
      } else {
        assert IsFirst(rows, before, least);
      }
    }
  }

  /** The row that an ordered query limited to one row returns. */
  function First<T(!new)>(rows: set<T>, before: (T, T) -> bool): (row: T)
    requires StrictOrder(rows, before) && rows != {}
    ensures IsFirst(rows, before, row)
  {
    FirstExists(rows, before);
    assert forall a, b | IsFirst(rows, before, a) && IsFirst(rows, before, b) :: a == b by {
      forall a, b | IsFirst(rows, before, a) && IsFirst(rows, before, b) ensures a == b {
        FirstIsUnique(rows, before, a, b);
      }
    }
    var row :| row in rows && forall other | other in rows && other != row :: before(row, other);
    row
  }

  /** All selected rows in the order of the query. */
  function Sorted<T(!new)>(rows: set<T>, before: (T, T) -> bool): (ordered: seq<T>)
    requires StrictOrder(rows, before)
    ensures forall row :: row in ordered <==> row in rows
    ensures forall i, j | 0 <= i < j < |ordered| :: before(ordered[i], ordered[j])
    ensures forall i, j | 0 <= i < j < |ordered| :: ordered[i] != ordered[j]
    decreases |rows|
  {
    if rows == {} then [] else
      var row := First(rows, before);
      [row] + Sorted(rows - {row}, before)
  }

  lemma MergeBuild<K, V>(a: map<K, V>, b: map<K, V>, k: K, v: V)
    ensures (a + b)[k := v] == a + b[k := v]
  {
  }

  lemma MergeMerge<K, V>(a: map<K, V>, b: map<K, V>, c: map<K, V>)
    ensures (a + b) + c == a + (b + c)
  {
  }

  lemma MergeEmpty<K, V>(a: map<K, V>)
    ensures a + map[] == a
  {
  }

  /** Any member: what is proved of a loop over picked members holds for every order. */
  method Pick<T(!new)>(s: set<T>) returns (x: T)
    requires s != {}
    ensures x in s
  {
    x :| x in s;
  }

  lemma Member<T(!new)>(s: set<T>) returns (x: T)
    requires s != {}
    ensures x in s
  {
    x :| x in s;
  }
}
