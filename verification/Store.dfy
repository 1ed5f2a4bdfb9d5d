/**
 The database as `sqllite_insert` sees it: per table the rows by id and the AUTOINCREMENT
 sequence. `inserted` and `deleted` record the table's history and take part in no decision.
 */
module Store {
  import opened Common
  import opened SqlText

  type Row = seq<(seq<Piece>, seq<Piece>)>

  datatype Entry = Entry(id: int, row: Row)

  datatype Table = Table(rows: map<int, Row>, last: Option<int>, inserted: seq<Entry>, deleted: set<int>)

  const EMPTY_TABLE := Table(map[], None, [], {})

  // ---------------------------------------------------------------------------
  // Executing an insert

  function TrimLeft(s: seq<Piece>): seq<Piece> {
    if s != [] && s[0] == Ch(' ') then TrimLeft(s[1..]) else s
  }

  function TrimRight(s: seq<Piece>): seq<Piece> {
    if s != [] && s[|s| - 1] == Ch(' ') then TrimRight(s[..|s| - 1]) else s
  }

  predicate IsIdColumn(col: seq<Piece>) { TrimLeft(TrimRight(col)) == ID_COLUMN }

  /** The caller left the id column to the engine. */
  predicate LeavesIdOpen(ins: Insert) {
    forall i :: 0 <= i < |ins.columns| ==> !IsIdColumn(ins.columns[i])
  }

  /** The id an insert asks for, if its first column is `id` bound to an integer. */
  function AskedId(ins: Insert): Option<int> {
    if ins.columns != [] && ins.values != [] && IsIdColumn(ins.columns[0])
       && |ins.values[0]| == 1 && ins.values[0][0].Arg? && ins.values[0][0].v.Integer?
    then Some(ins.values[0][0].v.n)
    else None
  }

  function Zip(a: seq<seq<Piece>>, b: seq<seq<Piece>>): Row {
    if a == [] || b == [] then [] else [(a[0], b[0])] + Zip(a[1..], b[1..])
  }

  function RowOf(ins: Insert): Row {
    if AskedId(ins).Some? then Zip(ins.columns[1..], ins.values[1..]) else Zip(ins.columns, ins.values)
  }

  function LastId(t: Table): int { if t.last.Some? then t.last.value else 0 }

  /** AUTOINCREMENT: an open id is one above the sequence. */
  function IdFor(t: Table, ins: Insert): int {
    if AskedId(ins).Some? then AskedId(ins).value else LastId(t) + 1
  }

  /** None is the uniqueness violation. */
  function Execute(t: Table, ins: Insert): Option<Table> {
    var id := IdFor(t, ins);
    if id in t.rows then None
    else Some(Table(t.rows[id := RowOf(ins)],
                    Some(if t.last.Some? && t.last.value > id then t.last.value else id),
                    t.inserted + [Entry(id, RowOf(ins))],
                    t.deleted))
  }

  /** An insert from a selection gives each row the next automatic id. */
  function AppendAll(t: Table, rows: seq<Row>): Table
    decreases rows
  {
    if rows == [] then t
    else
      var id := LastId(t) + 1;
      AppendAll(Table(t.rows[id := rows[0]], Some(id), t.inserted + [Entry(id, rows[0])], t.deleted), rows[1..])
  }

  function DeleteRows(t: Table, ids: set<int>): Table {
    t.(rows := t.rows - ids, deleted := t.deleted + (ids * t.rows.Keys))
  }

  lemma {:induction false} TrimsSpaces(a: nat, b: nat, col: seq<Piece>)
    requires col == Spaces(a) + ID_COLUMN + Spaces(b)
    ensures TrimLeft(TrimRight(col)) == ID_COLUMN
    decreases a + b
  {
    if b > 0 {
      var shorter := Spaces(a) + ID_COLUMN + Spaces(b - 1);
      assert col == shorter + [Ch(' ')];
      assert col[..|col| - 1] == shorter;
      TrimsSpaces(a, b - 1, shorter);
    } else if a > 0 {
      var shorter := Spaces(a - 1) + ID_COLUMN + Spaces(0);
      assert col == [Ch(' ')] + shorter && col[|col| - 1] == Ch('d');
      assert shorter[|shorter| - 1] == Ch('d') && TrimRight(col) == col && TrimRight(shorter) == shorter;
      assert col[1..] == shorter;
      TrimsSpaces(a - 1, 0, shorter);
    } else {
      assert col == ID_COLUMN;
    }
  }

  function Spaces(n: nat): seq<Piece> { seq(n, _ => Ch(' ')) }

  /** Column `id` is recognised with any number of spaces around it. */
  lemma IdColumnIs(a: nat, b: nat)
    ensures IsIdColumn(Spaces(a) + ID_COLUMN + Spaces(b))
  {
    TrimsSpaces(a, b, Spaces(a) + ID_COLUMN + Spaces(b));
  }

  /** The stored row pairs each column with its value. */
  lemma {:induction false} ZipPairs(a: seq<seq<Piece>>, b: seq<seq<Piece>>)
    ensures |Zip(a, b)| == if |a| <= |b| then |a| else |b|
    ensures forall i :: 0 <= i < |a| && i < |b| ==> Zip(a, b)[i] == (a[i], b[i])
  {
    if a != [] && b != [] {
      ZipPairs(a[1..], b[1..]);
      forall i | 0 <= i < |a| && i < |b|
        ensures Zip(a, b)[i] == (a[i], b[i])
      {
        if i > 0 {
          assert Zip(a, b)[i] == Zip(a[1..], b[1..])[i - 1];
        }
      }
    }
  }

  /** An insert fails exactly if its id is taken; otherwise it adds its row under that id, records it, keeps every
      other row, and lifts the sequence to the larger of what it was and the id. */
  lemma ExecuteAdds(t: Table, ins: Insert)
    ensures Execute(t, ins).Some? <==> IdFor(t, ins) !in t.rows
    ensures
      Execute(t, ins).Some? ==>
        var t', id := Execute(t, ins).value, IdFor(t, ins);
        && t'.rows.Keys == t.rows.Keys + {id} && t'.rows[id] == RowOf(ins)
        && (forall k :: k in t.rows ==> t'.rows[k] == t.rows[k])
        && t'.inserted == t.inserted + [Entry(id, RowOf(ins))] && t'.deleted == t.deleted
        && t'.last.Some? && t'.last.value >= id && (t.last.Some? ==> t'.last.value >= t.last.value)
        && (t'.last.value == id || t'.last == t.last)
  {
  }

  ghost predicate RowIs(t: Table, id: int, row: Row) { id in t.rows && t.rows[id] == row }

  /** A selection adds its rows in order under consecutive ids above the sequence. */
  lemma {:induction false} AppendAllAdds(t: Table, rows: seq<Row>, t': Table)
    requires t' == AppendAll(t, rows)
    ensures |t'.inserted| == |t.inserted| + |rows| && t.inserted <= t'.inserted && LastId(t') == LastId(t) + |rows|
    ensures forall i :: 0 <= i < |rows| ==> t'.inserted[|t.inserted| + i] == Entry(LastId(t) + 1 + i, rows[i])
    ensures forall i :: 0 <= i < |rows| ==> RowIs(t', LastId(t) + 1 + i, rows[i])
    ensures forall k :: k in t.rows && k <= LastId(t) ==> k in t'.rows && t'.rows[k] == t.rows[k]
    decreases rows
  {
    if rows != [] {
      var id := LastId(t) + 1;
      var m := Table(t.rows[id := rows[0]], Some(id), t.inserted + [Entry(id, rows[0])], t.deleted);
      AppendAllAdds(m, rows[1..], t');
      assert t'.inserted[|t.inserted|] == m.inserted[|t.inserted|];
      assert id in m.rows && id in t'.rows && t'.rows[id] == rows[0];
      forall i | 0 <= i < |rows|
        ensures t'.inserted[|t.inserted| + i] == Entry(LastId(t) + 1 + i, rows[i])
        ensures RowIs(t', LastId(t) + 1 + i, rows[i])
      {
        if i > 0 {
          assert rows[1..][i - 1] == rows[i] && LastId(m) + 1 + (i - 1) == LastId(t) + 1 + i;
          assert RowIs(t', LastId(m) + 1 + (i - 1), rows[1..][i - 1]);
          assert t'.inserted[|m.inserted| + (i - 1)] == Entry(LastId(m) + 1 + (i - 1), rows[1..][i - 1]);
        }
      }
    }
  }

  /** A deletion removes exactly the given rows that are there, and records them. */
  lemma DeleteRemoves(t: Table, ids: set<int>)
    ensures
      var t' := DeleteRows(t, ids);
      && t'.rows.Keys == t.rows.Keys - ids && (forall k :: k in t'.rows ==> t'.rows[k] == t.rows[k])
      && (forall k :: k in t'.deleted <==> k in t.deleted || (k in ids && k in t.rows))
      && t'.inserted == t.inserted && t'.last == t.last
  {
  }

  // ---------------------------------------------------------------------------
  // The rewritten insert

  /** Adding the allocated id changes the id and nothing else of the row. */
  lemma WithIdRow(id: int, ins: Insert)
    requires LeavesIdOpen(ins)
    ensures
      var full := WithId(id, Some(ins)).value;
      AskedId(ins) == None && AskedId(full) == Some(id) && RowOf(full) == RowOf(ins)
  {
  }

  // ---------------------------------------------------------------------------
  // Tables grown by ever larger ids

  ghost predicate Increasing(s: seq<Entry>) {
    forall i, j :: 0 <= i < j < |s| ==> s[i].id < s[j].id
  }

  ghost function RowsOf(s: seq<Entry>): map<int, Row> {
    if s == [] then map[]
    else
      var n := |s| - 1;
      RowsOf(s[..n])[s[n].id := s[n].row]
  }

  /** Ids grew strictly, the sequence is the last of them, and every row has one of them. */
  ghost predicate GrownIds(t: Table) {
    && Increasing(t.inserted)
    && t.last == (if t.inserted == [] then None else Some(t.inserted[|t.inserted| - 1].id))
    && (t.inserted != [] ==> 0 < t.inserted[0].id)
    && (forall id :: id in t.rows ==> id in RowsOf(t.inserted))
  }

  /** Moreover the rows are what was inserted less what was deleted. */
  ghost predicate Grown(t: Table) {
    && GrownIds(t)
    && t.rows == RowsOf(t.inserted) - t.deleted
    && (forall id :: id in t.deleted ==> id in RowsOf(t.inserted))
  }

  /** The table had nothing been deleted from it. */
  ghost function Undeleted(t: Table): Table {
    Table(RowsOf(t.inserted), t.last, t.inserted, {})
  }

  lemma {:induction false} RowsBelow(s: seq<Entry>, bound: int)
    requires forall i :: 0 <= i < |s| ==> s[i].id < bound
    ensures forall id :: id in RowsOf(s) ==> id < bound
  {
    if s != [] {
      RowsBelow(s[..|s| - 1], bound);
    }
  }

  lemma AboveAll(t: Table, id: int)
    requires GrownIds(t) && id > LastId(t)
    ensures forall i :: 0 <= i < |t.inserted| ==> t.inserted[i].id < id
    ensures id !in RowsOf(t.inserted) && id !in t.rows
  {
    if t.inserted != [] {
      var n := |t.inserted| - 1;
      assert forall i :: 0 <= i < n ==> t.inserted[i].id < t.inserted[n].id;
    }
    RowsBelow(t.inserted, id);
  }

  lemma RowsOfAppend(s: seq<Entry>, e: Entry)
    ensures RowsOf(s + [e]) == RowsOf(s)[e.id := e.row]
  {
  }

  lemma IncreasingAppend(s: seq<Entry>, e: Entry)
    requires Increasing(s) && forall i :: 0 <= i < |s| ==> s[i].id < e.id
    ensures Increasing(s + [e])
  {
  }

  lemma LastIdNonNegative(t: Table)
    requires GrownIds(t)
    ensures 0 <= LastId(t)
  {
  }

  /** Executing an insert whose id is above the sequence succeeds and keeps the ids growing. */
  lemma ExecuteGrowsIds(t: Table, ins: Insert)
    requires GrownIds(t) && IdFor(t, ins) > LastId(t)
    ensures Execute(t, ins).Some? && GrownIds(Execute(t, ins).value)
  {
    var e := Entry(IdFor(t, ins), RowOf(ins));
    AboveAll(t, e.id);
    LastIdNonNegative(t);
    IncreasingAppend(t.inserted, e);
    RowsOfAppend(t.inserted, e);
  }

  lemma {:induction false} AppendAllGrows(t: Table, rows: seq<Row>)
    requires GrownIds(t)
    ensures GrownIds(AppendAll(t, rows))
    decreases rows
  {
    if rows != [] {
      var e := Entry(LastId(t) + 1, rows[0]);
      AboveAll(t, e.id);
      LastIdNonNegative(t);
      IncreasingAppend(t.inserted, e);
      RowsOfAppend(t.inserted, e);
      AppendAllGrows(Table(t.rows[e.id := e.row], Some(e.id), t.inserted + [e], t.deleted), rows[1..]);
    }
  }

  lemma ExecuteUndeleted(t: Table, ins: Insert)
    requires GrownIds(t) && IdFor(t, ins) > LastId(t)
    ensures Execute(t, ins).Some? && Execute(Undeleted(t), ins) == Some(Undeleted(Execute(t, ins).value))
  {
    AboveAll(t, IdFor(t, ins));
    RowsOfAppend(t.inserted, Entry(IdFor(t, ins), RowOf(ins)));
  }

  lemma PutOutside(a: map<int, Row>, d: set<int>, id: int, row: Row)
    requires id !in d
    ensures (a - d)[id := row] == a[id := row] - d
  {
  }

  lemma ExecuteKeepsGrown(t: Table, ins: Insert)
    requires Grown(t) && IdFor(t, ins) > LastId(t)
    ensures Execute(t, ins).Some? && Grown(Execute(t, ins).value)
  {
    var e := Entry(IdFor(t, ins), RowOf(ins));
    ExecuteGrowsIds(t, ins);
    AboveAll(t, e.id);
    RowsOfAppend(t.inserted, e);
    PutOutside(RowsOf(t.inserted), t.deleted, e.id, e.row);
  }

  /** It also does the same to the table without its deletions. */
  lemma ExecuteGrows(t: Table, ins: Insert)
    requires Grown(t) && IdFor(t, ins) > LastId(t)
    ensures Execute(t, ins).Some? && Grown(Execute(t, ins).value)
    ensures Execute(Undeleted(t), ins) == Some(Undeleted(Execute(t, ins).value))
  {
    ExecuteKeepsGrown(t, ins);
    ExecuteUndeleted(t, ins);
  }

  lemma DeleteKeepsGrown(t: Table, ids: set<int>)
    requires Grown(t)
    ensures Grown(DeleteRows(t, ids)) && Undeleted(DeleteRows(t, ids)) == Undeleted(t)
  {
  }
}
