/**
 The insert threads together with threads inside `sqllite_delete` and `sqllite_update`
 (P2P_Server_src/db_sqlite.cpp): such a thread runs its statement on the watched table in one step
 and tells the observer in a later one, without taking the lock.
 */
module EditThreads {
  import opened Common
  import opened SqlText
  import opened Store
  import opened InsertProtocol
  import opened InsertThreads
  import opened InsertReplay
  import opened Edits

  /** `owing` are the edits run but not yet told; `done` are the changes made and `heard` the changes
      told, each in order, and `told` is what the observer was told of them. */
  datatype Both = Both(
    sys: Sys, owing: map<nat, nat>, done: seq<Change>, heard: seq<Change>, told: seq<Telling>)

  datatype Act = Inner(step: Step) | EditRun(t: nat, n: nat) | EditTold(t: nat)

  ghost function NewChange(s: Sys, step: Step, s': Sys, w: string): seq<Change> {
    var inserted := TableAt(s', w).inserted;
    if RunsOn(s, step, w) && inserted != [] then [Ins(inserted[|inserted| - 1])] else []
  }

  ghost predicate Tells(cfg: Config, s: Sys, step: Step) {
    step.Notify? && PcOf(s, step.t).Executed? && Notifies(cfg, PcOf(s, step.t).call)
  }

  ghost function NewTelling(cfg: Config, s: Sys, step: Step): seq<Telling> {
    if Tells(cfg, s, step)
    then
      var pc := PcOf(s, step.t);
      [ToldInsert(Note(pc.plan.sql, pc.plan.params, pc.flag))]
    else []
  }

  /** The insert that the lock holder has done and not told. */
  ghost function OwedInsert(w: string, s: Sys): seq<Change> {
    var inserted := TableAt(s, w).inserted;
    if Owed(s).Some? && Owed(s).value.flag == 0 && Target(Owed(s).value.sql) == w && inserted != []
    then [Ins(inserted[|inserted| - 1])] else []
  }

  ghost function NewHeard(cfg: Config, w: string, s: Sys, step: Step): seq<Change> {
    if Tells(cfg, s, step) && s.holder == Some(step.t) then OwedInsert(w, s) else []
  }

  /** One step, where statement `n` does `g(n)` to the rows. */
  ghost function Perform(cfg: Config, w: string, g: nat -> Edit, b: Both, act: Act): Option<Both> {
    match act
    case Inner(step) =>
      var s' := Apply(cfg, b.sys, step);
      if s' == None || (step.Begin? && step.t in b.owing) then None
      else Some(b.(sys := s'.value,
                   done := b.done + NewChange(b.sys, step, s'.value, w),
                   heard := b.heard + NewHeard(cfg, w, b.sys, step),
                   told := b.told + NewTelling(cfg, b.sys, step)))
    case EditRun(t, n) =>
      if t in b.owing || PcOf(b.sys, t) != Idle then None
      else Some(b.(sys := Put(b.sys, w, EditTable(TableAt(b.sys, w), g(n))),
                   owing := b.owing[t := n],
                   done := b.done + [Ed(n)]))
    case EditTold(t) =>
      if t !in b.owing then None
      else Some(b.(owing := b.owing - {t},
                   heard := b.heard + [Ed(b.owing[t])],
                   told := b.told + [ToldEdit(b.owing[t])]))
  }

  ghost function RunActs(cfg: Config, w: string, g: nat -> Edit, b: Both, acts: seq<Act>): Option<Both> {
    if acts == [] then Some(b)
    else
      var n := |acts| - 1;
      var before := RunActs(cfg, w, g, b, acts[..n]);
      if before.None? then None else Perform(cfg, w, g, before.value, acts[n])
  }

  /** Inserts into the watched table are as in the replay theorem, and its rows change only by
      inserts and by edits that tell. */
  ghost predicate ActOk(cfg: Config, w: string, act: Act) {
    act.Inner? ==>
      && StepOk(cfg, w, act.step) && StepListed(w, act.step) && StepObserved(cfg, w, act.step)
      && (act.step.Delete? || act.step.Update? ==> act.step.table != w)
  }

  ghost predicate AllActsOk(cfg: Config, w: string, acts: seq<Act>) {
    forall i :: 0 <= i < |acts| ==> ActOk(cfg, w, acts[i])
  }

  // ---------------------------------------------------------------------------
  // The invariant

  /** Run on the table, the notified statement gets an id above the sequence. */
  ghost predicate FreshFor(t: Table, note: Note, w: string) {
    note.flag == 0 && Target(note.sql) == w ==>
      var ins := Denote(note.sql, note.params);
      ins.Some? && IdFor(t, ins.value) > LastId(t)
  }

  /** A statement done but not told gets a fresh id on a replica that has heard all the rest. */
  ghost predicate OwedIsFresh(w: string, s: Sys) {
    Owed(s).Some? ==> FreshFor(Replay(s.log, w), Owed(s).value, w)
  }

  ghost predicate SysInv(cfg: Config, w: string, s: Sys) {
    Inv(cfg, w, s) && ListedInv(w, s) && HistoryInv(cfg, w, s) && OwedIsFresh(w, s)
  }

  /** A table is what a history leaves. */
  ghost predicate Plays(t: Table, cs: seq<Change>, g: nat -> Edit) {
    t.rows == Play(cs, g) && t.inserted == InsertsOf(cs)
  }

  ghost predicate Alike(a: Table, r: Table) {
    a.inserted == r.inserted && a.last == r.last && GrownIds(a) && GrownIds(r)
  }

  /** The replica that follows everything has inserted what the replica of the insert log has. */
  ghost predicate ReplicaAlike(w: string, g: nat -> Edit, b: Both) {
    Alike(ReplayAll(b.told, w, g), Replay(b.sys.log, w))
  }

  /** The table is what the changes made leave, the replica what the changes told leave. */
  ghost predicate BothInv(cfg: Config, w: string, g: nat -> Edit, b: Both) {
    && SysInv(cfg, w, b.sys)
    && Plays(TableAt(b.sys, w), b.done, g)
    && ReplicaAlike(w, g, b) && Plays(ReplayAll(b.told, w, g), b.heard, g)
  }

  // ---------------------------------------------------------------------------
  // Edits

  lemma EditIsTwoSteps(cfg: Config, w: string, s: Sys, f: Edit)
    ensures
      var tab := TableAt(s, w);
      var altered := Apply(cfg, s, Update(w, Altered(tab.rows, f)));
      && altered.Some?
      && Apply(cfg, altered.value, Delete(w, Gone(tab.rows, f))) == Some(Put(s, w, EditTable(tab, f)))
  {
    var tab := TableAt(s, w);
    var s1 := Put(s, w, tab.(rows := Altered(tab.rows, f)));
    assert Put(s1, w, EditTable(tab, f)) == Put(s, w, EditTable(tab, f));
  }

  lemma EditKeepsSys(cfg: Config, w: string, s: Sys, f: Edit)
    requires SysInv(cfg, w, s)
    ensures SysInv(cfg, w, Put(s, w, EditTable(TableAt(s, w), f)))
  {
    var tab := TableAt(s, w);
    EditIsTwoSteps(cfg, w, s, f);
    var update, delete := Update(w, Altered(tab.rows, f)), Delete(w, Gone(tab.rows, f));
    var s1 := Apply(cfg, s, update).value;
    var s2 := Put(s, w, EditTable(tab, f));
    StepKeeps(cfg, w, s, update);
    StepKeepsListed(cfg, w, s, update);
    StepKeepsHistory(cfg, w, s, update);
    StepKeeps(cfg, w, s1, delete);
    StepKeepsListed(cfg, w, s1, delete);
    StepKeepsHistory(cfg, w, s1, delete);
    assert Owed(s2) == Owed(s) && s2.log == s.log;
  }

  lemma EditPlays(t: Table, cs: seq<Change>, g: nat -> Edit, n: nat)
    requires Plays(t, cs, g)
    ensures Plays(EditTable(t, g(n)), cs + [Ed(n)], g)
  {
    EditTableRows(t, g(n));
    PlaySnoc(cs, Ed(n), g);
    assert InsertsOf(cs) + [] == InsertsOf(cs);
  }

  lemma EditRunKeeps(cfg: Config, w: string, g: nat -> Edit, b: Both, t: nat, n: nat, b': Both)
    requires BothInv(cfg, w, g, b) && Perform(cfg, w, g, b, EditRun(t, n)) == Some(b')
    ensures BothInv(cfg, w, g, b')
  {
    EditKeepsSys(cfg, w, b.sys, g(n));
    EditPlays(TableAt(b.sys, w), b.done, g, n);
  }

  lemma EditAlike(a: Table, r: Table, f: Edit)
    requires Alike(a, r)
    ensures Alike(EditTable(a, f), r)
  {
    EditTableRows(a, f);
  }

  lemma EditToldReplica(w: string, g: nat -> Edit, b: Both, b': Both, n: nat)
    requires ReplicaAlike(w, g, b) && Plays(ReplayAll(b.told, w, g), b.heard, g)
    requires b'.sys == b.sys && b'.told == b.told + [ToldEdit(n)] && b'.heard == b.heard + [Ed(n)]
    ensures ReplicaAlike(w, g, b') && Plays(ReplayAll(b'.told, w, g), b'.heard, g)
  {
    TellSnoc(b.told, ToldEdit(n), w, g);
    EditAlike(ReplayAll(b.told, w, g), Replay(b.sys.log, w), g(n));
    EditPlays(ReplayAll(b.told, w, g), b.heard, g, n);
  }

  lemma EditToldKeeps(cfg: Config, w: string, g: nat -> Edit, b: Both, t: nat, b': Both)
    requires BothInv(cfg, w, g, b) && Perform(cfg, w, g, b, EditTold(t)) == Some(b')
    ensures BothInv(cfg, w, g, b')
  {
    EditToldReplica(w, g, b, b', b.owing[t]);
  }

  // ---------------------------------------------------------------------------
  // Inserts

  /** Running a statement owes a fresh id. */
  lemma RunOwesFresh(cfg: Config, w: string, s: Sys, t: nat)
    requires Inv(cfg, w, s) && HistoryInv(cfg, w, s) && Apply(cfg, s, Execution(t, Done)).Some?
    requires Target(PcOf(s, t).plan.sql) == w
    ensures OwedIsFresh(w, Apply(cfg, s, Execution(t, Done)).value)
  {
    WatchedDone(cfg, w, s, t);
    assert Owed(s) == None;
    assert Replay(s.log, w).last == TableAt(s, w).last;
  }

  lemma OtherEndsFresh(cfg: Config, w: string, s: Sys, step: Step)
    requires SysInv(cfg, w, s) && Apply(cfg, s, step).Some?
    requires (step.Execution? || step.Selection?) && !RunsOn(s, step, w)
    ensures OwedIsFresh(w, Apply(cfg, s, step).value)
  {
    var s', t := Apply(cfg, s, step).value, step.t;
    assert s'.log == s.log && s'.holder == s.holder;
    assert PcOk(cfg, w, TableAt(s, w), PcOf(s, t));
    if s.holder != Some(t) {
      assert s.holder.Some? ==> PcOf(s', s.holder.value) == PcOf(s, s.holder.value);
      assert Owed(s') == Owed(s);
    }
  }

  lemma NotifyFresh(cfg: Config, w: string, s: Sys, t: nat)
    requires SysInv(cfg, w, s) && Apply(cfg, s, Notify(t)).Some?
    ensures OwedIsFresh(w, Apply(cfg, s, Notify(t)).value)
  {
    var s' := Apply(cfg, s, Notify(t)).value;
    var pc := PcOf(s, t);
    assert PcOk(cfg, w, TableAt(s, w), pc);
    assert InCritical(pc) <==> s.holder == Some(t);
    if pc.locked {
      assert Owed(s') == None;
    } else {
      assert Owed(s') == Owed(s);
      assert s.log + [] == s.log;
      if Notifies(cfg, pc.call) {
        ReplayAppend(s.log, Note(pc.plan.sql, pc.plan.params, pc.flag), w);
      }
    }
  }

  lemma InnerKeepsSys(cfg: Config, w: string, s: Sys, step: Step)
    requires SysInv(cfg, w, s) && ActOk(cfg, w, Inner(step)) && Apply(cfg, s, step).Some?
    ensures SysInv(cfg, w, Apply(cfg, s, step).value)
  {
    StepKeeps(cfg, w, s, step);
    StepKeepsListed(cfg, w, s, step);
    StepKeepsHistory(cfg, w, s, step);
    if step.Selection? {
      NoSelection(cfg, w, s, step);
    }
    if RunsOn(s, step, w) {
      RunOwesFresh(cfg, w, s, step.t);
    } else if step.Execution? || step.Selection? {
      OtherEndsFresh(cfg, w, s, step);
    } else if step.Notify? {
      NotifyFresh(cfg, w, s, step.t);
    } else {
      OwedKept(cfg, w, s, step);
    }
  }

  lemma OwedKept(cfg: Config, w: string, s: Sys, step: Step)
    requires Mutex(s) && Apply(cfg, s, step).Some?
    requires !step.Execution? && !step.Selection? && !step.Notify?
    ensures Owed(Apply(cfg, s, step).value) == Owed(s) && Apply(cfg, s, step).value.log == s.log
  {
    if MovesThread(step) {
      assert InCritical(PcOf(s, step.t)) <==> s.holder == Some(step.t);
    }
  }

  lemma TableKept(cfg: Config, w: string, s: Sys, step: Step)
    requires ActOk(cfg, w, Inner(step)) && Apply(cfg, s, step).Some? && !RunsOn(s, step, w)
    ensures TableAt(Apply(cfg, s, step).value, w) == TableAt(s, w)
  {
  }

  /** The parts of the state after a step of an insert. */
  lemma InnerFields(cfg: Config, w: string, g: nat -> Edit, b: Both, step: Step, b': Both)
    requires Perform(cfg, w, g, b, Inner(step)) == Some(b')
    ensures Apply(cfg, b.sys, step) == Some(b'.sys) && b'.owing == b.owing
    ensures b'.done == b.done + NewChange(b.sys, step, b'.sys, w)
    ensures b'.heard == b.heard + NewHeard(cfg, w, b.sys, step)
    ensures b'.told == b.told + NewTelling(cfg, b.sys, step)
  {
  }

  lemma ExecuteFacts(t: Table, ins: Insert)
    requires GrownIds(t) && IdFor(t, ins) > LastId(t)
    ensures
      var e, t' := Entry(IdFor(t, ins), RowOf(ins)), Store.Execute(t, ins);
      && t'.Some? && GrownIds(t'.value)
      && t'.value.inserted == t.inserted + [e] && t'.value.last == Some(e.id) && t'.value.rows == t.rows[e.id := e.row]
  {
    ExecuteGrowsIds(t, ins);
    LastIdNonNegative(t);
  }

  lemma RunAdds(cfg: Config, w: string, s: Sys, t: nat, s': Sys, tab: Table, tab': Table) returns (e: Entry)
    requires tab == TableAt(s, w) && tab' == TableAt(s', w) && GrownIds(tab)
    requires Inv(cfg, w, s) && Apply(cfg, s, Execution(t, Done)) == Some(s') && Target(PcOf(s, t).plan.sql) == w
    ensures tab'.inserted == tab.inserted + [e] && tab'.rows == tab.rows[e.id := e.row]
  {
    WatchedDone(cfg, w, s, t);
    var ins := Denote(PcOf(s, t).plan.sql, PcOf(s, t).plan.params).value;
    e := Entry(IdFor(tab, ins), RowOf(ins));
    ExecuteFacts(tab, ins);
  }

  lemma InsertPlays(t: Table, t': Table, cs: seq<Change>, g: nat -> Edit, e: Entry)
    requires Plays(t, cs, g) && t'.inserted == t.inserted + [e] && t'.rows == t.rows[e.id := e.row]
    ensures Plays(t', cs + [Ins(e)], g)
  {
    PlaySnoc(cs, Ins(e), g);
  }

  lemma InnerKeepsDone(cfg: Config, w: string, g: nat -> Edit, b: Both, step: Step, b': Both)
    requires Inv(cfg, w, b.sys) && ListedInv(w, b.sys) && Plays(TableAt(b.sys, w), b.done, g)
    requires ActOk(cfg, w, Inner(step)) && Perform(cfg, w, g, b, Inner(step)) == Some(b')
    ensures Plays(TableAt(b'.sys, w), b'.done, g)
  {
    InnerFields(cfg, w, g, b, step, b');
    if step.Selection? {
      NoSelection(cfg, w, b.sys, step);
    }
    if RunsOn(b.sys, step, w) {
      var tab, tab' := TableAt(b.sys, w), TableAt(b'.sys, w);
      var e := RunAdds(cfg, w, b.sys, step.t, b'.sys, tab, tab');
      assert NewChange(b.sys, step, b'.sys, w) == [Ins(e)];
      InsertPlays(tab, tab', b.done, g, e);
    } else {
      TableKept(cfg, w, b.sys, step);
      assert b.done + [] == b.done;
    }
  }

  lemma NoteRuns(t: Table, note: Note, w: string, ins: Insert)
    requires GrownIds(t) && note.flag == 0 && Target(note.sql) == w && Denote(note.sql, note.params) == Some(ins)
    requires IdFor(t, ins) > LastId(t)
    ensures
      var t', e := ReplayNote(t, note, w), Entry(IdFor(t, ins), RowOf(ins));
      && GrownIds(t') && t'.inserted == t.inserted + [e] && t'.last == Some(e.id)
      && t'.rows == t.rows[e.id := e.row]
  {
    ExecuteFacts(t, ins);
  }

  /** Two tables with the same history run a fresh statement alike: both add the same entry. */
  lemma RunsAlike(a: Table, r: Table, note: Note, w: string, a': Table, r': Table)
    requires Alike(a, r) && FreshFor(r, note, w)
    requires a' == ReplayNote(a, note, w) && r' == ReplayNote(r, note, w)
    ensures Alike(a', r')
    ensures
      if note.flag == 0 && Target(note.sql) == w then
        && r'.inserted != []
        && var e := r'.inserted[|r'.inserted| - 1];
           a'.inserted == a.inserted + [e] && a'.rows == a.rows[e.id := e.row]
      else a' == a
  {
    if note.flag == 0 && Target(note.sql) == w {
      var ins := Denote(note.sql, note.params).value;
      assert LastId(a) == LastId(r) && IdFor(a, ins) == IdFor(r, ins);
      NoteRuns(a, note, w, ins);
      NoteRuns(r, note, w, ins);
    }
  }

  lemma ToldIsFresh(cfg: Config, w: string, s: Sys, t: nat, note: Note, r: Table)
    requires SysInv(cfg, w, s) && PcOf(s, t).Executed? && r == Replay(s.log, w)
    requires note == Note(PcOf(s, t).plan.sql, PcOf(s, t).plan.params, PcOf(s, t).flag)
    ensures FreshFor(r, note, w)
    ensures note.flag == 0 && Target(note.sql) == w ==> s.holder == Some(t)
    ensures s.holder == Some(t) ==> Owed(s) == Some(note)
  {
    assert PcOk(cfg, w, TableAt(s, w), PcOf(s, t));
    assert InCritical(PcOf(s, t)) <==> s.holder == Some(t);
    assert s.holder == Some(t) ==> Owed(s) == Some(note);
  }

  /** The notification a thread sends is heard as the insert it owed. */
  lemma OwedIsLast(w: string, s: Sys, note: Note, tab: Table, r': Table)
    requires Owed(s) == Some(note) && note.flag == 0 && Target(note.sql) == w && tab == TableAt(s, w)
    requires r' == ReplayNote(Replay(s.log, w), note, w) && CaughtUp(s, w) == Undeleted(tab) && r'.inserted != []
    ensures OwedInsert(w, s) == [Ins(r'.inserted[|r'.inserted| - 1])]
  {
    assert r'.inserted == tab.inserted;
  }

  lemma TellingPlays(
    cfg: Config, w: string, g: nat -> Edit, s: Sys, t: nat, note: Note, a: Table, a': Table,
    heard: seq<Change>, paid: seq<Change>)
    requires SysInv(cfg, w, s) && Alike(a, Replay(s.log, w)) && Plays(a, heard, g) && PcOf(s, t).Executed?
    requires note == Note(PcOf(s, t).plan.sql, PcOf(s, t).plan.params, PcOf(s, t).flag)
    requires a' == ReplayNote(a, note, w) && paid == if s.holder == Some(t) then OwedInsert(w, s) else []
    ensures Alike(a', ReplayNote(Replay(s.log, w), note, w)) && Plays(a', heard + paid, g)
  {
    var r := Replay(s.log, w);
    var r' := ReplayNote(r, note, w);
    ToldIsFresh(cfg, w, s, t, note, r);
    RunsAlike(a, r, note, w, a', r');
    if note.flag == 0 && Target(note.sql) == w {
      var e := r'.inserted[|r'.inserted| - 1];
      OwedIsLast(w, s, note, TableAt(s, w), r');
      InsertPlays(a, a', heard, g, e);
    } else {
      assert paid == [] && heard + paid == heard;
    }
  }

  /** What a notification adds to the logs. */
  lemma NotifyFields(cfg: Config, w: string, g: nat -> Edit, b: Both, t: nat, b': Both)
    requires Perform(cfg, w, g, b, Inner(Notify(t))) == Some(b')
    ensures PcOf(b.sys, t).Executed? && b'.owing == b.owing && b'.done == b.done
    ensures
      var pc := PcOf(b.sys, t);
      var note := Note(pc.plan.sql, pc.plan.params, pc.flag);
      if Notifies(cfg, pc.call) then
        && b'.told == b.told + [ToldInsert(note)] && b'.sys.log == b.sys.log + [note]
        && b'.heard == b.heard + if b.sys.holder == Some(t) then OwedInsert(w, b.sys) else []
      else b'.told == b.told && b'.sys.log == b.sys.log && b'.heard == b.heard
  {
    assert b.done + [] == b.done && b.told + [] == b.told && b.sys.log + [] == b.sys.log;
    assert b.heard + [] == b.heard;
  }

  lemma NotifyKeepsReplica(cfg: Config, w: string, g: nat -> Edit, b: Both, t: nat, b': Both, a: Table)
    requires SysInv(cfg, w, b.sys) && a == ReplayAll(b.told, w, g)
    requires Alike(a, Replay(b.sys.log, w)) && Plays(a, b.heard, g)
    requires Perform(cfg, w, g, b, Inner(Notify(t))) == Some(b')
    ensures ReplicaAlike(w, g, b') && Plays(ReplayAll(b'.told, w, g), b'.heard, g)
  {
    var s, pc := b.sys, PcOf(b.sys, t);
    NotifyFields(cfg, w, g, b, t, b');
    if Notifies(cfg, pc.call) {
      var note := Note(pc.plan.sql, pc.plan.params, pc.flag);
      var paid := if s.holder == Some(t) then OwedInsert(w, s) else [];
      TellSnoc(b.told, ToldInsert(note), w, g);
      ReplayAppend(s.log, note, w);
      TellingPlays(cfg, w, g, s, t, note, a, ReplayNote(a, note, w), b.heard, paid);
    }
  }

  lemma QuietLogs(cfg: Config, w: string, g: nat -> Edit, b: Both, step: Step, b': Both)
    requires Perform(cfg, w, g, b, Inner(step)) == Some(b') && !step.Notify?
    ensures b'.told == b.told && b'.heard == b.heard && b'.sys.log == b.sys.log
  {
    assert b.told + [] == b.told && b.heard + [] == b.heard;
  }

  lemma InnerKeepsReplica(cfg: Config, w: string, g: nat -> Edit, b: Both, step: Step, b': Both)
    requires SysInv(cfg, w, b.sys) && ReplicaAlike(w, g, b) && Plays(ReplayAll(b.told, w, g), b.heard, g)
    requires Perform(cfg, w, g, b, Inner(step)) == Some(b')
    ensures ReplicaAlike(w, g, b') && Plays(ReplayAll(b'.told, w, g), b'.heard, g)
  {
    if step.Notify? {
      NotifyKeepsReplica(cfg, w, g, b, step.t, b', ReplayAll(b.told, w, g));
    } else {
      QuietLogs(cfg, w, g, b, step, b');
    }
  }

  /** Every step keeps it. */
  lemma PerformKeeps(cfg: Config, w: string, g: nat -> Edit, b: Both, act: Act, b': Both)
    requires BothInv(cfg, w, g, b) && ActOk(cfg, w, act) && Perform(cfg, w, g, b, act) == Some(b')
    ensures BothInv(cfg, w, g, b')
  {
    match act
    case Inner(step) =>
      InnerFields(cfg, w, g, b, step, b');
      InnerKeepsSys(cfg, w, b.sys, step);
      InnerKeepsDone(cfg, w, g, b, step, b');
      InnerKeepsReplica(cfg, w, g, b, step, b');
    case EditRun(t, n) => EditRunKeeps(cfg, w, g, b, t, n, b');
    case EditTold(t) => EditToldKeeps(cfg, w, g, b, t, b');
  }

  /** Nothing has happened yet. */
  ghost predicate Fresh(w: string, b: Both) {
    && Quiet(b.sys) && TableAt(b.sys, w) == EMPTY_TABLE
    && b.owing == map[] && b.done == [] && b.heard == [] && b.told == []
  }

  lemma FreshInvariant(cfg: Config, w: string, g: nat -> Edit, b: Both)
    requires Fresh(w, b)
    ensures BothInv(cfg, w, g, b)
  {
    QuietInv(cfg, w, b.sys);
    assert Undeleted(EMPTY_TABLE) == EMPTY_TABLE;
  }

  /** A run is a shorter run and its last step. */
  lemma LastAct(cfg: Config, w: string, g: nat -> Edit, b: Both, acts: seq<Act>, b': Both)
    returns (before: seq<Act>, m: Both, last: Act)
    requires acts != [] && AllActsOk(cfg, w, acts) && RunActs(cfg, w, g, b, acts) == Some(b')
    ensures before == acts[..|acts| - 1] && last == acts[|acts| - 1]
    ensures AllActsOk(cfg, w, before) && RunActs(cfg, w, g, b, before) == Some(m)
    ensures ActOk(cfg, w, last) && Perform(cfg, w, g, m, last) == Some(b')
  {
    before, last := acts[..|acts| - 1], acts[|acts| - 1];
    m := RunActs(cfg, w, g, b, before).value;
  }

  /** So does every interleaving. */
  lemma {:induction false} ActsKeep(cfg: Config, w: string, g: nat -> Edit, b: Both, acts: seq<Act>, b': Both)
    requires BothInv(cfg, w, g, b) && AllActsOk(cfg, w, acts) && RunActs(cfg, w, g, b, acts) == Some(b')
    ensures BothInv(cfg, w, g, b')
    decreases acts
  {
    if acts != [] {
      var before, m, last := LastAct(cfg, w, g, b, acts, b');
      ActsKeep(cfg, w, g, b, before, m);
      PerformKeeps(cfg, w, g, m, last, b');
    }
  }

  // ---------------------------------------------------------------------------
  // Inserted rows have columns

  lemma PlannedHasColumns(cfg: Config, w: string, call: Call, plan: Plan, t: Table, ins: Insert)
    requires WatchedCall(cfg, w, call) && PlanCurrent(cfg, call, plan, t) && Denote(plan.sql, plan.params) == Some(ins)
    ensures RowOf(ins) != []
  {
    if plan.rewritten {
      RewritePreserves(call.sql, plan.id, call.params);
      WithIdRow(plan.id, Denote(call.sql, call.params).value);
    } else {
      WithIdRow(0, ins);
    }
  }

  lemma InnerHasColumns(cfg: Config, w: string, s: Sys, step: Step, s': Sys)
    requires Inv(cfg, w, s) && ListedInv(w, s) && HaveColumns(TableAt(s, w).inserted)
    requires ActOk(cfg, w, Inner(step)) && Apply(cfg, s, step) == Some(s')
    ensures HaveColumns(TableAt(s', w).inserted)
  {
    if step.Selection? {
      NoSelection(cfg, w, s, step);
    }
    if RunsOn(s, step, w) {
      WatchedDone(cfg, w, s, step.t);
      var pc, tab := PcOf(s, step.t), TableAt(s, w);
      var ins := Denote(pc.plan.sql, pc.plan.params).value;
      PlannedHasColumns(cfg, w, pc.call, pc.plan, tab, ins);
      assert TableAt(s', w).inserted == tab.inserted + [Entry(IdFor(tab, ins), RowOf(ins))];
    } else {
      TableKept(cfg, w, s, step);
    }
  }

  lemma PerformHasColumns(cfg: Config, w: string, g: nat -> Edit, b: Both, act: Act, b': Both)
    requires SysInv(cfg, w, b.sys) && HaveColumns(TableAt(b.sys, w).inserted)
    requires ActOk(cfg, w, act) && Perform(cfg, w, g, b, act) == Some(b')
    ensures HaveColumns(TableAt(b'.sys, w).inserted)
  {
    match act
    case Inner(step) =>
      InnerFields(cfg, w, g, b, step, b');
      InnerHasColumns(cfg, w, b.sys, step, b'.sys);
    case EditRun(t, n) => EditTableRows(TableAt(b.sys, w), g(n));
    case EditTold(t) =>
  }

  lemma {:induction false} ActsHaveColumns(cfg: Config, w: string, g: nat -> Edit, b: Both, acts: seq<Act>, b': Both)
    requires BothInv(cfg, w, g, b) && HaveColumns(TableAt(b.sys, w).inserted)
    requires AllActsOk(cfg, w, acts) && RunActs(cfg, w, g, b, acts) == Some(b')
    ensures HaveColumns(TableAt(b'.sys, w).inserted)
    decreases acts
  {
    if acts != [] {
      var before, m, last := LastAct(cfg, w, g, b, acts, b');
      ActsHaveColumns(cfg, w, g, b, before, m);
      ActsKeep(cfg, w, g, b, before, m);
      PerformHasColumns(cfg, w, g, m, last, b');
    }
  }

  // ---------------------------------------------------------------------------
  // The schedule does not depend on what the edits do

  /** The same system but for the rows of the watched table. */
  ghost predicate SameButRows(w: string, s: Sys, r: Sys) {
    && s.threads == r.threads && s.holder == r.holder && s.log == r.log
    && (forall name :: name != w ==> TableAt(s, name) == TableAt(r, name))
    && TableAt(s, w).inserted == TableAt(r, w).inserted && TableAt(s, w).last == TableAt(r, w).last
  }

  ghost predicate SameSchedule(w: string, b: Both, c: Both) {
    && SameButRows(w, b.sys, c.sys)
    && b.owing == c.owing && b.done == c.done && b.heard == c.heard && b.told == c.told
  }

  lemma ExecuteAlike(t: Table, r: Table, ins: Insert)
    requires t.inserted == r.inserted && t.last == r.last && Store.Execute(t, ins).Some? && Store.Execute(r, ins).Some?
    ensures
      var t', r' := Store.Execute(t, ins).value, Store.Execute(r, ins).value;
      t'.inserted == r'.inserted && t'.last == r'.last
  {
  }

  lemma PutAlike(w: string, s: Sys, r: Sys, name: string, a: Table, b: Table)
    requires SameButRows(w, s, r) && a.inserted == b.inserted && a.last == b.last && (name != w ==> a == b)
    ensures SameButRows(w, Put(s, name, a), Put(r, name, b))
  {
    forall other | other != w
      ensures TableAt(Put(s, name, a), other) == TableAt(Put(r, name, b), other)
    {
      assert TableAt(s, other) == TableAt(r, other);
    }
  }

  lemma GoAlike(w: string, s: Sys, r: Sys, t: nat, pc: Pc)
    requires SameButRows(w, s, r)
    ensures SameButRows(w, Go(s, t, pc), Go(r, t, pc))
  {
    forall other | other != w
      ensures TableAt(Go(s, t, pc), other) == TableAt(Go(r, t, pc), other)
    {
      assert TableAt(s, other) == TableAt(r, other);
    }
  }

  lemma WatchedRunAlike(cfg: Config, w: string, s: Sys, r: Sys, t: nat)
    requires SameButRows(w, s, r) && Inv(cfg, w, s) && Inv(cfg, w, r)
    requires Apply(cfg, s, Execution(t, Done)).Some? && Target(PcOf(s, t).plan.sql) == w
    ensures Apply(cfg, r, Execution(t, Done)).Some?
    ensures SameButRows(w, Apply(cfg, s, Execution(t, Done)).value, Apply(cfg, r, Execution(t, Done)).value)
  {
    WatchedDone(cfg, w, s, t);
    var ins := Denote(PcOf(s, t).plan.sql, PcOf(s, t).plan.params).value;
    assert PcOf(r, t) == PcOf(s, t);
    assert IdFor(TableAt(r, w), ins) == IdFor(TableAt(s, w), ins) && LastId(TableAt(r, w)) == LastId(TableAt(s, w));
    ExecuteGrowsIds(TableAt(r, w), ins);
    CanRun(cfg, w, r, t, TableAt(r, w), ins);
    WatchedDone(cfg, w, r, t);
    ExecuteAlike(TableAt(s, w), TableAt(r, w), ins);
    var pc := Executed(PcOf(s, t).call, PcOf(s, t).plan, 0, true);
    GoAlike(w, s, r, t, pc);
    PutAlike(w, Go(s, t, pc), Go(r, t, pc), w, Store.Execute(TableAt(s, w), ins).value,
             Store.Execute(TableAt(r, w), ins).value);
  }

  lemma DataAlike(cfg: Config, w: string, s: Sys, r: Sys, step: Step)
    requires SameButRows(w, s, r) && ActOk(cfg, w, Inner(step)) && Apply(cfg, s, step).Some?
    requires step.Delete? || step.Update? || step.Foreign?
    ensures Apply(cfg, r, step).Some? && SameButRows(w, Apply(cfg, s, step).value, Apply(cfg, r, step).value)
  {
    assert TableAt(s, step.table) == TableAt(r, step.table);
    var t' := TableAt(Apply(cfg, s, step).value, step.table);
    PutAlike(w, s, r, step.table, t', t');
  }

  lemma RunAlike(cfg: Config, w: string, s: Sys, r: Sys, step: Step)
    requires SameButRows(w, s, r) && Apply(cfg, s, step).Some? && !RunsOn(s, step, w)
    requires (step.Execution? && step.outcome == Done) || step.Selection?
    ensures Apply(cfg, r, step).Some? && SameButRows(w, Apply(cfg, s, step).value, Apply(cfg, r, step).value)
  {
    var pc := PcOf(s, step.t);
    var name := Target(pc.plan.sql);
    assert PcOf(r, step.t) == pc && TableAt(s, name) == TableAt(r, name);
    var pc' := Executed(pc.call, pc.plan, 0, pc.locked);
    var t' := TableAt(Apply(cfg, s, step).value, name);
    GoAlike(w, s, r, step.t, pc');
    PutAlike(w, Go(s, step.t, pc'), Go(r, step.t, pc'), name, t', t');
  }

  lemma AnswerAlike(cfg: Config, w: string, s: Sys, r: Sys, call: Call, ok: bool)
    requires SameButRows(w, s, r)
    ensures Answer(cfg, s, call, ok) == Answer(cfg, r, call, ok)
  {
    var m := FirstMatch(cfg.slots, call.sql);
    assert m.Some? && m.value != w ==> TableAt(s, m.value) == TableAt(r, m.value);
  }

  lemma ThreadAlike(cfg: Config, w: string, s: Sys, r: Sys, step: Step)
    requires SameButRows(w, s, r) && Apply(cfg, s, step).Some? && MovesThread(step)
    requires !(step.Execution? && step.outcome == Done) && !step.Selection?
    ensures Apply(cfg, r, step).Some? && SameButRows(w, Apply(cfg, s, step).value, Apply(cfg, r, step).value)
  {
    assert PcOf(r, step.t) == PcOf(s, step.t);
    if step.Read? {
      AnswerAlike(cfg, w, s, r, PcOf(s, step.t).call, step.ok);
    }
    var s', r' := Apply(cfg, s, step).value, Apply(cfg, r, step).value;
    assert s'.store == s.store && r'.store == r.store;
    forall name | name != w
      ensures TableAt(s', name) == TableAt(r', name)
    {
      assert TableAt(s, name) == TableAt(r, name);
    }
  }

  lemma OtherStepAlike(cfg: Config, w: string, s: Sys, r: Sys, step: Step)
    requires SameButRows(w, s, r) && ActOk(cfg, w, Inner(step)) && Apply(cfg, s, step).Some? && !RunsOn(s, step, w)
    ensures Apply(cfg, r, step).Some? && SameButRows(w, Apply(cfg, s, step).value, Apply(cfg, r, step).value)
  {
    if step.Delete? || step.Update? || step.Foreign? {
      DataAlike(cfg, w, s, r, step);
    } else if (step.Execution? && step.outcome == Done) || step.Selection? {
      RunAlike(cfg, w, s, r, step);
    } else {
      ThreadAlike(cfg, w, s, r, step);
    }
  }

  lemma StepAlike(cfg: Config, w: string, s: Sys, r: Sys, step: Step)
    requires SameButRows(w, s, r) && Inv(cfg, w, s) && ListedInv(w, s) && Inv(cfg, w, r)
    requires ActOk(cfg, w, Inner(step)) && Apply(cfg, s, step).Some?
    ensures Apply(cfg, r, step).Some? && SameButRows(w, Apply(cfg, s, step).value, Apply(cfg, r, step).value)
  {
    if step.Selection? {
      NoSelection(cfg, w, s, step);
    }
    if RunsOn(s, step, w) {
      WatchedRunAlike(cfg, w, s, r, step.t);
    } else {
      OtherStepAlike(cfg, w, s, r, step);
    }
  }

  lemma NewsAlike(cfg: Config, w: string, s: Sys, r: Sys, step: Step, s': Sys, r': Sys)
    requires SameButRows(w, s, r) && SameButRows(w, s', r')
    ensures NewChange(s, step, s', w) == NewChange(r, step, r', w)
    ensures NewTelling(cfg, s, step) == NewTelling(cfg, r, step)
    ensures NewHeard(cfg, w, s, step) == NewHeard(cfg, w, r, step)
  {
    assert Owed(s) == Owed(r);
  }

  lemma InnerAlike(cfg: Config, w: string, g: nat -> Edit, k: nat -> Edit, b: Both, c: Both, step: Step, b': Both)
    returns (c': Both)
    requires SysInv(cfg, w, b.sys) && SysInv(cfg, w, c.sys) && SameSchedule(w, b, c)
    requires ActOk(cfg, w, Inner(step)) && Perform(cfg, w, g, b, Inner(step)) == Some(b')
    ensures Perform(cfg, w, k, c, Inner(step)) == Some(c') && SameSchedule(w, b', c')
  {
    InnerFields(cfg, w, g, b, step, b');
    StepAlike(cfg, w, b.sys, c.sys, step);
    c' := Perform(cfg, w, k, c, Inner(step)).value;
    InnerFields(cfg, w, k, c, step, c');
    NewsAlike(cfg, w, b.sys, c.sys, step, b'.sys, c'.sys);
  }

  lemma EditRunAlike(
    cfg: Config, w: string, g: nat -> Edit, k: nat -> Edit, b: Both, c: Both, t: nat, n: nat, b': Both)
    returns (c': Both)
    requires SameSchedule(w, b, c) && Perform(cfg, w, g, b, EditRun(t, n)) == Some(b')
    ensures Perform(cfg, w, k, c, EditRun(t, n)) == Some(c') && SameSchedule(w, b', c')
  {
    assert PcOf(c.sys, t) == PcOf(b.sys, t);
    c' := Perform(cfg, w, k, c, EditRun(t, n)).value;
    var tab, other := EditTable(TableAt(b.sys, w), g(n)), EditTable(TableAt(c.sys, w), k(n));
    EditTableRows(TableAt(b.sys, w), g(n));
    EditTableRows(TableAt(c.sys, w), k(n));
    PutAlike(w, b.sys, c.sys, w, tab, other);
  }

  lemma PerformAlike(cfg: Config, w: string, g: nat -> Edit, k: nat -> Edit, b: Both, c: Both, act: Act, b': Both)
    returns (c': Both)
    requires SysInv(cfg, w, b.sys) && SysInv(cfg, w, c.sys) && SameSchedule(w, b, c)
    requires ActOk(cfg, w, act) && Perform(cfg, w, g, b, act) == Some(b')
    ensures Perform(cfg, w, k, c, act) == Some(c') && SameSchedule(w, b', c')
  {
    match act
    case Inner(step) => c' := InnerAlike(cfg, w, g, k, b, c, step, b');
    case EditRun(t, n) => c' := EditRunAlike(cfg, w, g, k, b, c, t, n, b');
    case EditTold(t) => c' := Perform(cfg, w, k, c, act).value;
  }

  /** A run that is possible for some meaning of the edits is possible for every meaning, with the same
      changes made and told in the same order. */
  lemma {:induction false} RunsAlikeForAll(
    cfg: Config, w: string, g: nat -> Edit, k: nat -> Edit, b: Both, acts: seq<Act>, b': Both)
    returns (c': Both)
    requires BothInv(cfg, w, g, b) && BothInv(cfg, w, k, b)
    requires AllActsOk(cfg, w, acts) && RunActs(cfg, w, g, b, acts) == Some(b')
    ensures RunActs(cfg, w, k, b, acts) == Some(c') && SameSchedule(w, b', c')
    ensures BothInv(cfg, w, g, b') && BothInv(cfg, w, k, c')
    decreases acts
  {
    if acts == [] {
      c' := b;
    } else {
      var before, m, last := LastAct(cfg, w, g, b, acts, b');
      var m' := RunsAlikeForAll(cfg, w, g, k, b, before, m);
      c' := PerformAlike(cfg, w, g, k, m, m', last, b');
      PerformKeeps(cfg, w, g, m, last, b');
      PerformKeeps(cfg, w, k, m', last, c');
    }
  }
}
