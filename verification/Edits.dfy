/**
 Deletions and updates of a table as values: what a history of changes leaves behind, in the order
 the changes were made and in the order they were told.

 `sqllite_delete` and `sqllite_update` (P2P_Server_src/db_sqlite.cpp) run their statement and call
 back without the lock that `sqllite_insert` holds, so the two orders can differ. Statements are
 numbered; what the n-th one does to the rows is `g(n)`.
 */
module Edits {
  import opened Common
  import opened SqlText
  import opened Store
  import opened InsertProtocol
  import opened InsertReplay

  /** What a delete or update statement makes of all rows; ids that are not there are not added. */
  type Edit = map<int, Row> -> map<int, Row>

  datatype Change = Ins(e: Entry) | Ed(n: nat)

  datatype Telling = ToldInsert(note: Note) | ToldEdit(n: nat)

  // ---------------------------------------------------------------------------
  // An edit of a table

  ghost function Edited(rows: map<int, Row>, f: Edit): map<int, Row> {
    map id | id in rows && id in f(rows) :: f(rows)[id]
  }

  ghost function Altered(rows: map<int, Row>, f: Edit): map<int, Row> {
    map id | id in rows :: if id in f(rows) then f(rows)[id] else rows[id]
  }

  ghost function Gone(rows: map<int, Row>, f: Edit): set<int> {
    set id | id in rows && id !in f(rows)
  }

  ghost function EditTable(t: Table, f: Edit): Table {
    DeleteRows(t.(rows := Altered(t.rows, f)), Gone(t.rows, f))
  }

  lemma EditTableRows(t: Table, f: Edit)
    ensures EditTable(t, f).rows == Edited(t.rows, f)
    ensures EditTable(t, f).inserted == t.inserted && EditTable(t, f).last == t.last
    ensures GrownIds(t) ==> GrownIds(EditTable(t, f))
  {
  }

  // ---------------------------------------------------------------------------
  // Playing a history

  ghost function Do(rows: map<int, Row>, c: Change, g: nat -> Edit): map<int, Row> {
    match c
    case Ins(e) => rows[e.id := e.row]
    case Ed(n) => Edited(rows, g(n))
  }

  ghost function Play(cs: seq<Change>, g: nat -> Edit): map<int, Row> {
    if cs == [] then map[] else Do(Play(cs[..|cs| - 1], g), cs[|cs| - 1], g)
  }

  ghost function InsertsOf(cs: seq<Change>): seq<Entry> {
    if cs == [] then []
    else
      var n := |cs| - 1;
      InsertsOf(cs[..n]) + if cs[n].Ins? then [cs[n].e] else []
  }

  lemma PlaySnoc(cs: seq<Change>, c: Change, g: nat -> Edit)
    ensures Play(cs + [c], g) == Do(Play(cs, g), c, g)
    ensures InsertsOf(cs + [c]) == InsertsOf(cs) + if c.Ins? then [c.e] else []
  {
    assert (cs + [c])[..|cs|] == cs;
  }

  // ---------------------------------------------------------------------------
  // A replica that follows every notification

  ghost function ReplayTelling(t: Table, telling: Telling, w: string, g: nat -> Edit): Table {
    match telling
    case ToldInsert(note) => ReplayNote(t, note, w)
    case ToldEdit(n) => EditTable(t, g(n))
  }

  ghost function ReplayAll(told: seq<Telling>, w: string, g: nat -> Edit): Table {
    if told == [] then EMPTY_TABLE
    else ReplayTelling(ReplayAll(told[..|told| - 1], w, g), told[|told| - 1], w, g)
  }

  lemma TellSnoc(told: seq<Telling>, telling: Telling, w: string, g: nat -> Edit)
    ensures ReplayAll(told + [telling], w, g) == ReplayTelling(ReplayAll(told, w, g), telling, w, g)
  {
    assert (told + [telling])[..|told|] == told;
  }

  // ---------------------------------------------------------------------------
  // The edits after an insertion

  /** The edits that come after the insertion of an entry, in order. */
  ghost function EditsAfter(cs: seq<Change>, e: Entry): seq<nat> {
    if cs == [] then []
    else
      var n := |cs| - 1;
      EditsAfter(cs[..n], e) + if cs[n].Ed? && e in InsertsOf(cs[..n]) then [cs[n].n] else []
  }

  lemma {:induction false} NoEditsBefore(cs: seq<Change>, e: Entry)
    requires e !in InsertsOf(cs)
    ensures EditsAfter(cs, e) == []
  {
    if cs != [] {
      NoEditsBefore(cs[..|cs| - 1], e);
    }
  }

  lemma IncreasingPrefix(s: seq<Entry>, e: Entry)
    requires Increasing(s + [e])
    ensures Increasing(s) && forall x :: x in s ==> x.id < e.id
  {
    assert forall i :: 0 <= i < |s| ==> (s + [e])[i] == s[i];
    assert (s + [e])[|s|] == e;
  }

  /** The last change of a history that ends with an insertion, or with an edit. */
  lemma LastInsertion(cs: seq<Change>)
    requires cs != [] && cs[|cs| - 1].Ins? && Increasing(InsertsOf(cs))
    ensures
      var before, e := cs[..|cs| - 1], cs[|cs| - 1].e;
      && InsertsOf(cs) == InsertsOf(before) + [e] && Increasing(InsertsOf(before)) && e !in InsertsOf(before)
      && EditsAfter(cs, e) == []
      && (forall x :: EditsAfter(cs, x) == EditsAfter(before, x))
  {
    var before, e := cs[..|cs| - 1], cs[|cs| - 1].e;
    IncreasingPrefix(InsertsOf(before), e);
    NoEditsBefore(before, e);
    assert forall x :: EditsAfter(before, x) + [] == EditsAfter(before, x);
  }

  lemma LastEdit(cs: seq<Change>)
    requires cs != [] && cs[|cs| - 1].Ed?
    ensures
      var before, n := cs[..|cs| - 1], cs[|cs| - 1].n;
      && InsertsOf(cs) == InsertsOf(before)
      && (forall x :: x in InsertsOf(cs) ==> EditsAfter(cs, x) == EditsAfter(before, x) + [n])
  {
  }

  // ---------------------------------------------------------------------------
  // Histories that leave the same rows whatever the edits do

  /** A history without the edits that found no row yet. */
  ghost function FromFirst(cs: seq<Change>): seq<Change> {
    if cs == [] then []
    else
      var n := |cs| - 1;
      FromFirst(cs[..n]) + if cs[n].Ins? || InsertsOf(cs[..n]) != [] then [cs[n]] else []
  }

  ghost predicate SameEditsAfter(a: seq<Change>, b: seq<Change>) {
    forall e :: e in InsertsOf(a) ==> EditsAfter(a, e) == EditsAfter(b, e)
  }

  lemma {:induction false} NothingYet(cs: seq<Change>, g: nat -> Edit)
    requires InsertsOf(cs) == []
    ensures FromFirst(cs) == [] && Play(cs, g) == map[]
  {
    if cs != [] {
      NothingYet(cs[..|cs| - 1], g);
    }
  }

  lemma {:induction false} FromFirstPlays(cs: seq<Change>, g: nat -> Edit)
    ensures Play(FromFirst(cs), g) == Play(cs, g) && InsertsOf(FromFirst(cs)) == InsertsOf(cs)
  {
    if InsertsOf(cs) == [] {
      NothingYet(cs, g);
    } else {
      var n := |cs| - 1;
      FromFirstPlays(cs[..n], g);
      PlaySnoc(FromFirst(cs[..n]), cs[n], g);
    }
  }

  lemma EditsAfterSnoc(cs: seq<Change>, c: Change, e: Entry)
    ensures EditsAfter(cs + [c], e) == EditsAfter(cs, e) + if c.Ed? && e in InsertsOf(cs) then [c.n] else []
  {
    assert (cs + [c])[..|cs|] == cs;
  }

  lemma {:induction false} FromFirstEdits(cs: seq<Change>, e: Entry)
    ensures EditsAfter(FromFirst(cs), e) == EditsAfter(cs, e)
  {
    if cs != [] {
      var n := |cs| - 1;
      FromFirstEdits(cs[..n], e);
      FromFirstPlays(cs[..n], k => rows => rows);
      if cs[n].Ins? || InsertsOf(cs[..n]) != [] {
        EditsAfterSnoc(FromFirst(cs[..n]), cs[n], e);
      } else {
        assert FromFirst(cs[..n]) + [] == FromFirst(cs[..n]);
      }
    }
  }

  lemma LastKinds(a: seq<Change>, b: seq<Change>)
    requires InsertsOf(a) == InsertsOf(b) != [] && Increasing(InsertsOf(a)) && SameEditsAfter(a, b)
    requires a[|a| - 1].Ins?
    ensures b[|b| - 1] == a[|a| - 1]
  {
    var e := a[|a| - 1].e;
    LastInsertion(a);
    assert e in InsertsOf(b) && EditsAfter(b, e) == [];
    if b[|b| - 1].Ed? {
      LastEdit(b);
      assert false;
    } else {
      LastInsertion(b);
      assert InsertsOf(b)[|InsertsOf(b)| - 1] == b[|b| - 1].e;
    }
  }

  lemma SameBefore(a: seq<Change>, b: seq<Change>)
    requires InsertsOf(a) == InsertsOf(b) != [] && Increasing(InsertsOf(a)) && SameEditsAfter(a, b)
    ensures
      var a', b' := a[..|a| - 1], b[..|b| - 1];
      && a[|a| - 1] == b[|b| - 1]
      && InsertsOf(a') == InsertsOf(b') && Increasing(InsertsOf(a')) && SameEditsAfter(a', b')
  {
    var a', b' := a[..|a| - 1], b[..|b| - 1];
    if a[|a| - 1].Ins? {
      LastKinds(a, b);
      LastInsertion(a);
      LastInsertion(b);
      assert InsertsOf(a') == InsertsOf(a)[..|InsertsOf(a)| - 1] == InsertsOf(b');
    } else {
      if b[|b| - 1].Ins? {
        LastKinds(b, a);
      }
      LastEdit(a);
      LastEdit(b);
      var e := InsertsOf(a)[0];
      assert EditsAfter(a, e) == EditsAfter(b, e);
      assert a[|a| - 1].n == EditsAfter(a, e)[|EditsAfter(a, e)| - 1] == b[|b| - 1].n;
      forall x | x in InsertsOf(a')
        ensures EditsAfter(a', x) == EditsAfter(b', x)
      {
        assert EditsAfter(a', x) == EditsAfter(a, x)[..|EditsAfter(a, x)| - 1];
        assert EditsAfter(b', x) == EditsAfter(b, x)[..|EditsAfter(b, x)| - 1];
      }
    }
  }

  lemma {:induction false} SameOrder(a: seq<Change>, b: seq<Change>)
    requires InsertsOf(a) == InsertsOf(b) && Increasing(InsertsOf(a)) && SameEditsAfter(a, b)
    ensures FromFirst(a) == FromFirst(b)
    decreases a
  {
    if InsertsOf(a) == [] {
      NothingYet(a, k => rows => rows);
      NothingYet(b, k => rows => rows);
    } else {
      SameBefore(a, b);
      SameOrder(a[..|a| - 1], b[..|b| - 1]);
    }
  }

  /** Two histories of the same insertions have the same edits after every insertion exactly if they
      are the same history from the first insertion on. */
  lemma SameOrderIff(a: seq<Change>, b: seq<Change>)
    requires InsertsOf(a) == InsertsOf(b) && Increasing(InsertsOf(a))
    ensures SameEditsAfter(a, b) <==> FromFirst(a) == FromFirst(b)
  {
    if SameEditsAfter(a, b) {
      SameOrder(a, b);
    }
    if FromFirst(a) == FromFirst(b) {
      forall e
        ensures EditsAfter(a, e) == EditsAfter(b, e)
      {
        FromFirstEdits(a, e);
        FromFirstEdits(b, e);
      }
    }
  }

  // ---------------------------------------------------------------------------
  // Edits that treat every row on its own

  type RowEdit = Entry -> Option<Row>

  ghost function PerRow(f: RowEdit): Edit {
    (rows: map<int, Row>) =>
      map id | id in rows && f(Entry(id, rows[id])).Some? :: f(Entry(id, rows[id])).value
  }

  ghost function ByRow(h: nat -> RowEdit): nat -> Edit { n => PerRow(h(n)) }

  ghost function RowAt(rows: map<int, Row>, id: int): Option<Row> {
    if id in rows then Some(rows[id]) else None
  }

  /** What the edits, one after the other, make of one row. */
  ghost function RowAfter(ns: seq<nat>, e: Entry, h: nat -> RowEdit): Option<Row> {
    if ns == [] then Some(e.row)
    else
      var r := RowAfter(ns[..|ns| - 1], e, h);
      if r == None then None else h(ns[|ns| - 1])(Entry(e.id, r.value))
  }

  lemma RowAfterSnoc(ns: seq<nat>, n: nat, e: Entry, h: nat -> RowEdit)
    ensures
      var r := RowAfter(ns, e, h);
      RowAfter(ns + [n], e, h) == if r == None then None else h(n)(Entry(e.id, r.value))
  {
    assert (ns + [n])[..|ns|] == ns;
  }

  lemma EditedRow(rows: map<int, Row>, f: RowEdit, id: int)
    ensures RowAt(Edited(rows, PerRow(f)), id) == if id in rows then f(Entry(id, rows[id])) else None
  {
  }

  /** Such edits leave an inserted row as the edits after it make it. */
  lemma {:induction false} RowIsEdited(cs: seq<Change>, e: Entry, h: nat -> RowEdit)
    requires Increasing(InsertsOf(cs)) && e in InsertsOf(cs)
    ensures RowAt(Play(cs, ByRow(h)), e.id) == RowAfter(EditsAfter(cs, e), e, h)
  {
    var before, c := cs[..|cs| - 1], cs[|cs| - 1];
    if c.Ed? {
      LastEdit(cs);
      RowIsEdited(before, e, h);
      EditedRow(Play(before, ByRow(h)), h(c.n), e.id);
      RowAfterSnoc(EditsAfter(before, e), c.n, e, h);
    } else {
      LastInsertion(cs);
      if e in InsertsOf(before) {
        IncreasingPrefix(InsertsOf(before), c.e);
        RowIsEdited(before, e, h);
      }
    }
  }

  lemma {:induction false} PlayedIdIsInserted(cs: seq<Change>, g: nat -> Edit, id: int) returns (e: Entry)
    requires id in Play(cs, g)
    ensures e in InsertsOf(cs) && e.id == id
  {
    var n := |cs| - 1;
    if cs[n].Ins? && cs[n].e.id == id {
      e := cs[n].e;
    } else {
      e := PlayedIdIsInserted(cs[..n], g, id);
    }
  }

  ghost predicate SameRowAfter(a: seq<Change>, b: seq<Change>, h: nat -> RowEdit, e: Entry) {
    RowAfter(EditsAfter(a, e), e, h) == RowAfter(EditsAfter(b, e), e, h)
  }

  lemma SameRowIff(a: seq<Change>, b: seq<Change>, h: nat -> RowEdit, e: Entry)
    requires InsertsOf(a) == InsertsOf(b) && Increasing(InsertsOf(a)) && e in InsertsOf(a)
    ensures SameRowAfter(a, b, h, e) <==> RowAt(Play(a, ByRow(h)), e.id) == RowAt(Play(b, ByRow(h)), e.id)
  {
    RowIsEdited(a, e, h);
    RowIsEdited(b, e, h);
  }

  lemma SameRowsAt(one: map<int, Row>, two: map<int, Row>)
    requires forall id :: id in one || id in two ==> RowAt(one, id) == RowAt(two, id)
    ensures one == two
  {
    forall id | id in one || id in two
      ensures id in one && id in two && one[id] == two[id]
    {
      assert RowAt(one, id) == RowAt(two, id);
    }
  }

  /** Two histories of the same insertions leave the same rows if and only if, for every inserted row,
      the edits after it in the one and in the other come to the same. */
  lemma SameRowsIff(a: seq<Change>, b: seq<Change>, h: nat -> RowEdit)
    requires InsertsOf(a) == InsertsOf(b) && Increasing(InsertsOf(a))
    ensures Play(a, ByRow(h)) == Play(b, ByRow(h)) <==> forall e :: e in InsertsOf(a) ==> SameRowAfter(a, b, h, e)
  {
    var one, two := Play(a, ByRow(h)), Play(b, ByRow(h));
    if one == two {
      forall e | e in InsertsOf(a)
        ensures SameRowAfter(a, b, h, e)
      {
        SameRowIff(a, b, h, e);
      }
    }
    if forall e :: e in InsertsOf(a) ==> SameRowAfter(a, b, h, e) {
      forall id | id in one || id in two
        ensures RowAt(one, id) == RowAt(two, id)
      {
        var e := PlayedIdIsInserted(if id in one then a else b, ByRow(h), id);
        SameRowIff(a, b, h, e);
      }
      SameRowsAt(one, two);
    }
  }

  // ---------------------------------------------------------------------------
  // Deletions

  /** The n-th statement deletes the rows it selects. */
  ghost function Deletes(sel: (nat, Entry) -> bool): nat -> RowEdit {
    n => (e: Entry) => if sel(n, e) then None else Some(e.row)
  }

  ghost predicate Selected(ns: seq<nat>, sel: (nat, Entry) -> bool, e: Entry) {
    exists n :: n in ns && sel(n, e)
  }

  lemma {:induction false} DeletedIffSelected(ns: seq<nat>, e: Entry, sel: (nat, Entry) -> bool)
    ensures RowAfter(ns, e, Deletes(sel)) == if Selected(ns, sel, e) then None else Some(e.row)
  {
    if ns != [] {
      var k := |ns| - 1;
      DeletedIffSelected(ns[..k], e, sel);
      assert forall n :: n in ns <==> n in ns[..k] || n == ns[k];
      assert ns[k] in ns;
    }
  }

  /** With deletions only, exactly if every inserted row is selected after its insertion in both or in
      neither. */
  lemma SameSurvivorsIff(a: seq<Change>, b: seq<Change>, sel: (nat, Entry) -> bool)
    requires InsertsOf(a) == InsertsOf(b) && Increasing(InsertsOf(a))
    ensures
      Play(a, ByRow(Deletes(sel))) == Play(b, ByRow(Deletes(sel))) <==>
      forall e :: e in InsertsOf(a) ==> (Selected(EditsAfter(a, e), sel, e) <==> Selected(EditsAfter(b, e), sel, e))
  {
    SameRowsIff(a, b, Deletes(sel));
    forall e
      ensures SameRowAfter(a, b, Deletes(sel), e) <==>
              (Selected(EditsAfter(a, e), sel, e) <==> Selected(EditsAfter(b, e), sel, e))
    {
      DeletedIffSelected(EditsAfter(a, e), e, sel);
      DeletedIffSelected(EditsAfter(b, e), e, sel);
    }
  }

  ghost predicate SameEditSets(a: seq<Change>, b: seq<Change>) {
    forall e, n :: e in InsertsOf(a) ==> (n in EditsAfter(a, e) <==> n in EditsAfter(b, e))
  }

  ghost predicate SameWhateverDeleted(a: seq<Change>, b: seq<Change>) {
    forall sel: (nat, Entry) -> bool :: Play(a, ByRow(Deletes(sel))) == Play(b, ByRow(Deletes(sel)))
  }

  lemma OneDeletion(a: seq<Change>, b: seq<Change>, e: Entry, n: nat)
    requires InsertsOf(a) == InsertsOf(b) && Increasing(InsertsOf(a)) && SameWhateverDeleted(a, b)
    requires e in InsertsOf(a)
    ensures n in EditsAfter(a, e) <==> n in EditsAfter(b, e)
  {
    var sel: (nat, Entry) -> bool := (k, x) => k == n;
    assert Play(a, ByRow(Deletes(sel))) == Play(b, ByRow(Deletes(sel)));
    SameSurvivorsIff(a, b, sel);
    assert Selected(EditsAfter(a, e), sel, e) <==> n in EditsAfter(a, e);
    assert Selected(EditsAfter(b, e), sel, e) <==> n in EditsAfter(b, e);
  }

  /** Whatever the deletions select, the rows are the same exactly if the same deletions come after
      every insertion, in any order. */
  lemma DeletionOrderIff(a: seq<Change>, b: seq<Change>)
    requires InsertsOf(a) == InsertsOf(b) && Increasing(InsertsOf(a))
    ensures SameWhateverDeleted(a, b) <==> SameEditSets(a, b)
  {
    if SameWhateverDeleted(a, b) {
      forall e, n | e in InsertsOf(a)
        ensures n in EditsAfter(a, e) <==> n in EditsAfter(b, e)
      {
        OneDeletion(a, b, e, n);
      }
    }
    if SameEditSets(a, b) {
      forall sel: (nat, Entry) -> bool
        ensures Play(a, ByRow(Deletes(sel))) == Play(b, ByRow(Deletes(sel)))
      {
        SameSurvivorsIff(a, b, sel);
      }
    }
  }

  // ---------------------------------------------------------------------------
  // All edits

  ghost function Columns(row: Row): seq<seq<Piece>> {
    seq(|row|, i requires 0 <= i < |row| => row[i].0)
  }

  /** The edit changes values only, as a delete or update statement does. */
  ghost predicate KeepsColumns(f: Edit) {
    forall rows, id :: id in rows && id in f(rows) ==> Columns(f(rows)[id]) == Columns(rows[id])
  }

  ghost predicate AllKeepColumns(g: nat -> Edit) { forall n :: KeepsColumns(g(n)) }

  ghost predicate HaveColumns(entries: seq<Entry>) { forall e :: e in entries ==> e.row != [] }

  ghost function ArgsOf(ns: seq<nat>): seq<Piece> {
    seq(|ns|, i requires 0 <= i < |ns| => Arg(Integer(ns[i])))
  }

  ghost function Tagged(row: Row, ps: seq<Piece>): Row {
    if row == [] then row else row[0 := (row[0].0, row[0].1 + ps)]
  }

  /** The n-th statement appends its number to the first column's value. */
  ghost function Tags(): nat -> RowEdit {
    n => (e: Entry) => Some(Tagged(e.row, ArgsOf([n])))
  }

  lemma TagsKeepColumns()
    ensures AllKeepColumns(ByRow(Tags()))
  {
    forall n, rows: map<int, Row>, id | id in rows && id in ByRow(Tags())(n)(rows)
      ensures Columns(ByRow(Tags())(n)(rows)[id]) == Columns(rows[id])
    {
      var f := Tags()(n);
      assert ByRow(Tags())(n) == PerRow(f);
      assert PerRow(f)(rows)[id] == f(Entry(id, rows[id])).value == Tagged(rows[id], ArgsOf([n]));
    }
  }

  lemma {:induction false} TaggedRow(ns: seq<nat>, e: Entry)
    ensures RowAfter(ns, e, Tags()) == Some(Tagged(e.row, ArgsOf(ns)))
  {
    if ns == [] {
      TaggedNothing(e.row);
    } else {
      var k := |ns| - 1;
      TaggedRow(ns[..k], e);
      assert ArgsOf(ns) == ArgsOf(ns[..k]) + ArgsOf([ns[k]]);
      TaggedTwice(e.row, ArgsOf(ns[..k]), ArgsOf([ns[k]]));
    }
  }

  lemma TaggedNothing(row: Row)
    ensures Tagged(row, ArgsOf([])) == row
  {
    if row != [] {
      assert row[0].1 + ArgsOf([]) == row[0].1;
      assert (row[0].0, row[0].1) == row[0];
    }
  }

  lemma TaggedTwice(row: Row, ps: seq<Piece>, qs: seq<Piece>)
    ensures Tagged(Tagged(row, ps), qs) == Tagged(row, ps + qs)
  {
    if row != [] {
      assert (row[0].1 + ps) + qs == row[0].1 + (ps + qs);
    }
  }

  lemma TagsTellApart(row: Row, a: seq<nat>, b: seq<nat>)
    requires row != [] && Tagged(row, ArgsOf(a)) == Tagged(row, ArgsOf(b))
    ensures a == b
  {
    var v := row[0].1;
    assert v + ArgsOf(a) == Tagged(row, ArgsOf(a))[0].1 == v + ArgsOf(b);
    assert |v + ArgsOf(a)| == |v + ArgsOf(b)|;
    forall i | 0 <= i < |a|
      ensures a[i] == b[i]
    {
      assert (v + ArgsOf(a))[|v| + i] == ArgsOf(a)[i] && (v + ArgsOf(b))[|v| + i] == ArgsOf(b)[i];
    }
  }

  ghost predicate SameWhateverDone(a: seq<Change>, b: seq<Change>) {
    forall g: nat -> Edit :: Play(a, g) == Play(b, g)
  }

  ghost predicate SameWhateverSet(a: seq<Change>, b: seq<Change>) {
    forall g: nat -> Edit :: AllKeepColumns(g) ==> Play(a, g) == Play(b, g)
  }

  lemma TaggedApart(a: seq<Change>, b: seq<Change>)
    requires InsertsOf(a) == InsertsOf(b) && Increasing(InsertsOf(a)) && HaveColumns(InsertsOf(a))
    requires SameWhateverSet(a, b)
    ensures SameEditsAfter(a, b)
  {
    TagsKeepColumns();
    assert Play(a, ByRow(Tags())) == Play(b, ByRow(Tags()));
    SameRowsIff(a, b, Tags());
    forall e | e in InsertsOf(a)
      ensures EditsAfter(a, e) == EditsAfter(b, e)
    {
      assert SameRowAfter(a, b, Tags(), e);
      TaggedRow(EditsAfter(a, e), e);
      TaggedRow(EditsAfter(b, e), e);
      TagsTellApart(e.row, EditsAfter(a, e), EditsAfter(b, e));
    }
  }

  lemma SameOrderPlays(a: seq<Change>, b: seq<Change>)
    requires InsertsOf(a) == InsertsOf(b) && Increasing(InsertsOf(a)) && SameEditsAfter(a, b)
    ensures SameWhateverDone(a, b)
  {
    SameOrder(a, b);
    forall g: nat -> Edit
      ensures Play(a, g) == Play(b, g)
    {
      FromFirstPlays(a, g);
      FromFirstPlays(b, g);
    }
  }

  /** Whatever the edits do, the rows are the same exactly if the same edits, in the same order, come
      after every insertion; and edits that change values only are enough to tell. */
  lemma EditOrderIff(a: seq<Change>, b: seq<Change>)
    requires InsertsOf(a) == InsertsOf(b) && Increasing(InsertsOf(a)) && HaveColumns(InsertsOf(a))
    ensures SameWhateverDone(a, b) <==> SameEditsAfter(a, b)
    ensures SameWhateverSet(a, b) <==> SameEditsAfter(a, b)
  {
    if SameWhateverSet(a, b) {
      TaggedApart(a, b);
    }
    if SameEditsAfter(a, b) {
      SameOrderPlays(a, b);
    }
  }
}
