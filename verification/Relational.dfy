/** Tables, key equality with SQL's treatment of NULL, and the rows of an inner join. */
module Relational {
  import opened Domain
  import opened Sets

  datatype Cell = Null | Known(value: int)
  type Row = map<string, Cell>
  type Table = seq<Row>
  type Database = map<string, Table>

  function Read(row: Row, column: string): Cell {
    if column in row then row[column] else Null
  }

  function Cells(row: Row, columns: seq<string>): seq<Cell> {
    seq(|columns|, i requires 0 <= i < |columns| => Read(row, columns[i]))
  }

  predicate HasKey(row: Row, columns: seq<string>) {
    forall i :: 0 <= i < |columns| ==> Read(row, columns[i]).Known?
  }

  /** The conjunction of the key equalities is true; an equality with NULL never is. */
  predicate Matches(d: Definition, child: Row, parent: Row)
    requires |d.child.columns| == |d.parent.columns|
  {
    forall i :: 0 <= i < |d.child.columns| ==>
      && Read(child, d.child.columns[i]).Known?
      && Read(child, d.child.columns[i]) == Read(parent, d.parent.columns[i])
  }

  lemma MatchesByKey(d: Definition, child: Row, parent: Row)
    requires |d.child.columns| == |d.parent.columns|
    ensures Matches(d, child, parent) <==>
              && HasKey(child, d.child.columns) && HasKey(parent, d.parent.columns)
              && Cells(child, d.child.columns) == Cells(parent, d.parent.columns)
  {
    var a, b := Cells(child, d.child.columns), Cells(parent, d.parent.columns);
    if HasKey(child, d.child.columns) && HasKey(parent, d.parent.columns) && a == b {
      forall i | 0 <= i < |a| ensures Read(child, d.child.columns[i]) == Read(parent, d.parent.columns[i]) {
        assert a[i] == b[i];
      }
    }
  }

  function KeyedRows(t: Table, columns: seq<string>): set<nat> {
    set i: nat | i < |t| && HasKey(t[i], columns)
  }

  function KeyAt(t: Table, columns: seq<string>, i: nat): seq<Cell> {
    if i < |t| then Cells(t[i], columns) else []
  }

  /** One GROUP BY group. */
  function Group(t: Table, columns: seq<string>, key: seq<Cell>): set<nat> {
    set i | i in KeyedRows(t, columns) && KeyAt(t, columns, i) == key
  }

  function Keys(t: Table, columns: seq<string>): set<seq<Cell>> {
    set i | i in KeyedRows(t, columns) :: KeyAt(t, columns, i)
  }

  /** COALESCE(MAX(COUNT(*)), 0) over the groups that start among the first `n` rows. */
  function LargestGroup(t: Table, columns: seq<string>, n: nat): (r: nat)
    requires n <= |t|
    ensures forall i :: 0 <= i < n && HasKey(t[i], columns) ==> |Group(t, columns, KeyAt(t, columns, i))| <= r
    ensures r == 0 || exists i :: 0 <= i < n && HasKey(t[i], columns) && |Group(t, columns, KeyAt(t, columns, i))| == r
  {
    if n == 0 then 0
    else
      var rest := LargestGroup(t, columns, n - 1);
      var size := |Group(t, columns, KeyAt(t, columns, n - 1))|;
      if HasKey(t[n - 1], columns) && rest < size then size else rest
  }

  /** No two keyed rows agree on the key. */
  ghost predicate UniqueKey(t: Table, columns: seq<string>) {
    var rows := KeyedRows(t, columns);
    forall i, j :: i in rows && j in rows && KeyAt(t, columns, i) == KeyAt(t, columns, j) ==> i == j
  }

  lemma SmallGroup(t: Table, columns: seq<string>, i: nat, j: nat)
    requires i in KeyedRows(t, columns) && j in KeyedRows(t, columns)
    requires KeyAt(t, columns, i) == KeyAt(t, columns, j)
    requires |Group(t, columns, KeyAt(t, columns, i))| <= 1
    ensures i == j
  {
    SubsetSize({i, j}, Group(t, columns, KeyAt(t, columns, i)));
  }

  lemma BigGroup(t: Table, columns: seq<string>, i: nat)
    requires i in KeyedRows(t, columns) && |Group(t, columns, KeyAt(t, columns, i))| > 1
    ensures !UniqueKey(t, columns)
  {
    var group := Group(t, columns, KeyAt(t, columns, i));
    assert group - {i} != {} by {
      if group - {i} == {} {
        SubsetSize(group, {i});
      }
    }
    var j :| j in group - {i};
  }

  lemma LargestGroupAtMostOne(t: Table, columns: seq<string>)
    ensures LargestGroup(t, columns, |t|) <= 1 <==> UniqueKey(t, columns)
  {
    if LargestGroup(t, columns, |t|) <= 1 {
      var rows := KeyedRows(t, columns);
      forall i, j | i in rows && j in rows && KeyAt(t, columns, i) == KeyAt(t, columns, j) ensures i == j {
        SmallGroup(t, columns, i, j);
      }
    } else {
      var i :| 0 <= i < |t| && HasKey(t[i], columns)
        && |Group(t, columns, KeyAt(t, columns, i))| == LargestGroup(t, columns, |t|);
      BigGroup(t, columns, i);
    }
  }

  function KeysAt(t: Table, columns: seq<string>, rows: set<nat>): set<seq<Cell>>
    requires rows <= KeyedRows(t, columns)
  {
    set i | i in rows :: KeyAt(t, columns, i)
  }

  ghost predicate DifferentKeys(t: Table, columns: seq<string>, rows: set<nat>)
    requires rows <= KeyedRows(t, columns)
  {
    forall i, j :: i in rows && j in rows && KeyAt(t, columns, i) == KeyAt(t, columns, j) ==> i == j
  }

  lemma OneMoreKey(t: Table, columns: seq<string>, rest: set<nat>, x: nat)
    requires rest + {x} <= KeyedRows(t, columns) && x !in rest
    ensures KeysAt(t, columns, rest + {x}) == KeysAt(t, columns, rest) + {KeyAt(t, columns, x)}
    ensures DifferentKeys(t, columns, rest + {x}) <==>
      DifferentKeys(t, columns, rest) && KeyAt(t, columns, x) !in KeysAt(t, columns, rest)
  {
    assert x in rest + {x} && forall i :: i in rest ==> i in rest + {x};
  }

  lemma {:induction false} KeysOfRows(t: Table, columns: seq<string>, rows: set<nat>)
    requires rows <= KeyedRows(t, columns)
    ensures |KeysAt(t, columns, rows)| <= |rows|
    ensures |KeysAt(t, columns, rows)| == |rows| <==> DifferentKeys(t, columns, rows)
    decreases rows
  {
    if rows != {} {
      var x :| x in rows;
      var rest := rows - {x};
      KeysOfRows(t, columns, rest);
      assert rows == rest + {x};
      OneMoreKey(t, columns, rest, x);
    } else {
      assert KeysAt(t, columns, rows) == {};
    }
  }

  lemma {:induction false} KeyedCount(t: Table, columns: seq<string>)
    ensures |KeyedRows(t, columns)| <= |t|
    ensures |KeyedRows(t, columns)| == |t| <==> forall i: nat :: i < |t| ==> HasKey(t[i], columns)
  {
    if t == [] {
      assert KeyedRows(t, columns) == {};
    } else {
      KeyedCount(t[..|t| - 1], columns);
      KeyedOneMore(t, columns);
    }
  }

  lemma KeyedOneMore(t: Table, columns: seq<string>)
    requires t != []
    ensures var n := |t| - 1;
      |KeyedRows(t, columns)| == |KeyedRows(t[..n], columns)| + if HasKey(t[n], columns) then 1 else 0
  {
    var n := |t| - 1;
    assert KeyedRows(t, columns) == KeyedRows(t[..n], columns) + if HasKey(t[n], columns) then {n} else {};
  }

  /** COUNT(*) equals COUNT of groups exactly when the key is unique. */
  lemma DistinctCountUnique(t: Table, columns: seq<string>)
    ensures |Keys(t, columns)| <= |KeyedRows(t, columns)|
    ensures |Keys(t, columns)| == |KeyedRows(t, columns)| <==> UniqueKey(t, columns)
  {
    KeysOfRows(t, columns, KeyedRows(t, columns));
  }

  // ---------------------------------------------------------------- joins

  /** A join edge with its direction resolved: `child` and `parent` name table instances. */
  datatype JoinEdge = JoinEdge(definition: Definition, child: string, parent: string)

  function TableOf(db: Database, entity: string): Table {
    if entity in db then db[entity] else []
  }

  predicate EdgeHolds(db: Database, entities: map<string, string>, e: JoinEdge, row: map<string, nat>)
    requires |e.definition.child.columns| == |e.definition.parent.columns|
  {
    && e.child in row && e.parent in row && e.child in entities && e.parent in entities
    && row[e.child] < |TableOf(db, entities[e.child])| && row[e.parent] < |TableOf(db, entities[e.parent])|
    && Matches(e.definition, TableOf(db, entities[e.child])[row[e.child]], TableOf(db, entities[e.parent])[row[e.parent]])
  }

  /** A row of the inner join: one row number per instance, every edge predicate true. */
  ghost predicate JoinRow(db: Database, entities: map<string, string>, edges: seq<JoinEdge>, row: map<string, nat>) {
    && row.Keys == entities.Keys
    && (forall r :: r in row ==> row[r] < |TableOf(db, entities[r])|)
    && (forall e :: e in edges ==>
          && |e.definition.child.columns| == |e.definition.parent.columns|
          && EdgeHolds(db, entities, e, row))
  }
}
