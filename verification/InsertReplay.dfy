/**
 What the runs of `InsertThreads` leave behind: the ids in closed form, and a notification log
 that rebuilds the watched table elsewhere.
 */
module InsertReplay {
  import opened Common
  import opened SqlText
  import opened Allocator
  import opened Store
  import opened InsertProtocol
  import opened InsertThreads

  // ---------------------------------------------------------------------------
  // Inserts of listed values

  /** Inserts into the watched table list their values instead of selecting them. */
  ghost predicate AllListed(w: string, steps: seq<Step>) {
    forall i :: 0 <= i < |steps| ==> StepListed(w, steps[i])
  }

  ghost predicate StepListed(w: string, step: Step) {
    step.Begin? && Target(step.call.sql) == w ==> TwoParens(step.call.sql)
  }

  ghost predicate PcListed(w: string, pc: Pc) {
    (pc.Waiting? || pc.Holding? || pc.Planned?) && Target(pc.call.sql) == w ==> TwoParens(pc.call.sql)
  }

  ghost predicate ListedInv(w: string, s: Sys) {
    forall t: nat :: PcListed(w, PcOf(s, t))
  }

  predicate MovesThread(step: Step) {
    || step.Begin? || step.Acquire? || step.Read? || step.Execution? || step.Selection?
    || step.Notify? || step.Release?
  }

  lemma OthersUnmoved(cfg: Config, s: Sys, step: Step, u: nat)
    requires Apply(cfg, s, step).Some? && (MovesThread(step) ==> step.t != u)
    ensures PcOf(Apply(cfg, s, step).value, u) == PcOf(s, u)
  {
  }

  lemma StepKeepsListed(cfg: Config, w: string, s: Sys, step: Step)
    requires ListedInv(w, s) && StepListed(w, step) && Apply(cfg, s, step).Some?
    ensures ListedInv(w, Apply(cfg, s, step).value)
  {
    forall u: nat
      ensures PcListed(w, PcOf(Apply(cfg, s, step).value, u))
    {
      assert PcListed(w, PcOf(s, u));
      if !MovesThread(step) || step.t != u {
        OthersUnmoved(cfg, s, step, u);
      }
    }
  }

  /** So no selection runs on the watched table. */
  lemma NoSelection(cfg: Config, w: string, s: Sys, step: Step)
    requires Inv(cfg, w, s) && ListedInv(w, s) && step.Selection? && Apply(cfg, s, step).Some?
    ensures Target(PcOf(s, step.t).plan.sql) != w
  {
    assert PcListed(w, PcOf(s, step.t)) && PcOk(cfg, w, TableAt(s, w), PcOf(s, step.t));
  }

  lemma {:induction false} RunKeepsListed(cfg: Config, w: string, s: Sys, steps: seq<Step>)
    requires ListedInv(w, s) && AllListed(w, steps) && Run(cfg, s, steps).Some?
    ensures ListedInv(w, Run(cfg, s, steps).value)
  {
    if steps != [] {
      var n := |steps| - 1;
      RunKeepsListed(cfg, w, s, steps[..n]);
      StepKeepsListed(cfg, w, Run(cfg, s, steps[..n]).value, steps[n]);
    }
  }

  // ---------------------------------------------------------------------------
  // Closed form of the committed ids

  /** No sequence query fails. */
  ghost predicate ReadsSucceed(steps: seq<Step>) {
    forall i :: 0 <= i < |steps| && steps[i].Read? ==> steps[i].ok
  }

  ghost predicate PcFresh(cfg: Config, w: string, tab: Table, pc: Pc) {
    pc.Planned? && Target(pc.call.sql) == w ==> pc.plan == LockedPlan(cfg, pc.call, ReadOf(tab))
  }

  ghost predicate ClosedForm(t: Table) {
    forall i :: 0 <= i < |t.inserted| ==> t.inserted[i].id == NthId(i + 1)
  }

  ghost predicate FreshInv(cfg: Config, w: string, s: Sys) {
    && ClosedForm(TableAt(s, w))
    && (forall t: nat :: PcFresh(cfg, w, TableAt(s, w), PcOf(s, t)))
  }

  /** The next id in closed form. */
  lemma NextInClosedForm(t: Table)
    requires GrownIds(t) && ClosedForm(t)
    ensures AllocatedId(ReadOf(t)) == NthId(|t.inserted| + 1)
  {
    NthIdStep(if |t.inserted| == 0 then 1 else |t.inserted|);
  }

  lemma ClosedFormGrows(t: Table, ins: Insert)
    requires GrownIds(t) && ClosedForm(t) && IdFor(t, ins) == AllocatedId(ReadOf(t)) && Store.Execute(t, ins).Some?
    ensures ClosedForm(Store.Execute(t, ins).value)
  {
    NextInClosedForm(t);
  }

  lemma DoneKeepsFresh(cfg: Config, w: string, s: Sys, t: nat)
    requires Inv(cfg, w, s) && FreshInv(cfg, w, s) && ListedInv(w, s) && Apply(cfg, s, Execution(t, Done)).Some?
    requires Target(PcOf(s, t).plan.sql) == w
    ensures FreshInv(cfg, w, Apply(cfg, s, Execution(t, Done)).value)
  {
    var s' := Apply(cfg, s, Execution(t, Done)).value;
    var pc, tab := PcOf(s, t), TableAt(s, w);
    WatchedDone(cfg, w, s, t);
    assert PcFresh(cfg, w, tab, pc) && PcListed(w, pc);
    PlanAbove(cfg, w, pc.call, pc.plan, tab);
    ClosedFormGrows(tab, Denote(pc.plan.sql, pc.plan.params).value);
    forall u: nat
      ensures PcFresh(cfg, w, TableAt(s', w), PcOf(s', u))
    {
      if u != t {
        assert PcOf(s', u) == PcOf(s, u);
        OthersAway(cfg, w, s, t, u);
      }
    }
  }

  /** A step that runs a statement on the watched table. */
  predicate RunsOn(s: Sys, step: Step, w: string) {
    && ((step.Execution? && step.outcome == Done) || step.Selection?)
    && PcOf(s, step.t).Planned? && Target(PcOf(s, step.t).plan.sql) == w
  }

  /** Only such a step changes its history. */
  lemma HistoryKept(cfg: Config, w: string, s: Sys, step: Step)
    requires StepOk(cfg, w, step) && Apply(cfg, s, step).Some? && !RunsOn(s, step, w)
    ensures
      var tab, tab' := TableAt(s, w), TableAt(Apply(cfg, s, step).value, w);
      tab'.inserted == tab.inserted && tab'.last == tab.last
  {
  }

  lemma MoverFresh(cfg: Config, w: string, s: Sys, step: Step)
    requires MovesThread(step) && Apply(cfg, s, step).Some? && StepOk(cfg, w, step)
    requires PcOk(cfg, w, TableAt(s, w), PcOf(s, step.t))
    requires step.Read? ==> step.ok
    ensures PcFresh(cfg, w, TableAt(s, w), PcOf(Apply(cfg, s, step).value, step.t))
  {
  }

  lemma StepKeepsFresh(cfg: Config, w: string, s: Sys, step: Step)
    requires Inv(cfg, w, s) && FreshInv(cfg, w, s) && ListedInv(w, s)
    requires StepOk(cfg, w, step) && Apply(cfg, s, step).Some?
    requires step.Read? ==> step.ok
    ensures FreshInv(cfg, w, Apply(cfg, s, step).value)
  {
    var s' := Apply(cfg, s, step).value;
    if step.Selection? {
      NoSelection(cfg, w, s, step);
    }
    if RunsOn(s, step, w) {
      DoneKeepsFresh(cfg, w, s, step.t);
    } else {
      HistoryKept(cfg, w, s, step);
      forall u: nat
        ensures PcFresh(cfg, w, TableAt(s', w), PcOf(s', u))
      {
        assert PcFresh(cfg, w, TableAt(s, w), PcOf(s, u)) && PcOk(cfg, w, TableAt(s, w), PcOf(s, u));
        if MovesThread(step) && step.t == u {
          MoverFresh(cfg, w, s, step);
        } else {
          OthersUnmoved(cfg, s, step, u);
        }
      }
    }
  }

  lemma {:induction false} RunKeepsFresh(cfg: Config, w: string, s: Sys, steps: seq<Step>)
    requires Inv(cfg, w, s) && FreshInv(cfg, w, s) && ListedInv(w, s)
    requires AllOk(cfg, w, steps) && AllListed(w, steps) && ReadsSucceed(steps) && Run(cfg, s, steps).Some?
    ensures FreshInv(cfg, w, Run(cfg, s, steps).value)
  {
    if steps != [] {
      var n := |steps| - 1;
      RunKeepsFresh(cfg, w, s, steps[..n]);
      RunKeeps(cfg, w, s, steps[..n]);
      RunKeepsListed(cfg, w, s, steps[..n]);
      StepKeepsFresh(cfg, w, Run(cfg, s, steps[..n]).value, steps[n]);
    }
  }

  /** From an empty watched table, under any interleaving without a failed sequence query, the n-th
      committed insert has id n + (n-1)/49: the positive non-multiples of 50, in order, each once. */
  lemma CommittedIds(cfg: Config, w: string, s0: Sys, steps: seq<Step>)
    requires Quiet(s0) && TableAt(s0, w) == EMPTY_TABLE
    requires AllOk(cfg, w, steps) && AllListed(w, steps) && ReadsSucceed(steps) && Run(cfg, s0, steps).Some?
    ensures ClosedForm(TableAt(Run(cfg, s0, steps).value, w))
  {
    QuietInv(cfg, w, s0);
    RunKeepsFresh(cfg, w, s0, steps);
  }

  // ---------------------------------------------------------------------------
  // Replay

  /** A replica runs a notification if the sender had run it. */
  ghost function ReplayNote(t: Table, note: Note, w: string): Table {
    if note.flag != 0 || Target(note.sql) != w then t
    else
      var ins := Denote(note.sql, note.params);
      if ins == None then t
      else
        var r := Store.Execute(t, ins.value);
        if r == None then t else r.value
  }

  /** Table `w` of a replica that started empty and followed the log. */
  ghost function Replay(log: seq<Note>, w: string): Table {
    if log == [] then EMPTY_TABLE else ReplayNote(Replay(log[..|log| - 1], w), log[|log| - 1], w)
  }

  ghost predicate AllObserved(cfg: Config, w: string, steps: seq<Step>) {
    forall i :: 0 <= i < |steps| ==> StepObserved(cfg, w, steps[i])
  }

  /** Inserts into the watched table are observed. */
  ghost predicate StepObserved(cfg: Config, w: string, step: Step) {
    step.Begin? && Target(step.call.sql) == w ==> Notifies(cfg, step.call)
  }

  ghost predicate PcObserved(cfg: Config, w: string, pc: Pc) {
    && ((pc.Waiting? || pc.Holding? || pc.Planned?) && Target(pc.call.sql) == w ==> Notifies(cfg, pc.call))
    && (pc.Executed? && Target(pc.plan.sql) == w ==> Notifies(cfg, pc.call))
  }

  /** The notification the lock holder still owes for a step already done. */
  ghost function Owed(s: Sys): Option<Note> {
    if s.holder.Some? && PcOf(s, s.holder.value).Executed?
    then
      var pc := PcOf(s, s.holder.value);
      Some(Note(pc.plan.sql, pc.plan.params, pc.flag))
    else None
  }

  ghost function CaughtUp(s: Sys, w: string): Table {
    if Owed(s).Some? then ReplayNote(Replay(s.log, w), Owed(s).value, w) else Replay(s.log, w)
  }

  /** Replayed, the log and what is owed have inserted what the table has, in the same order. */
  ghost predicate HistoryInv(cfg: Config, w: string, s: Sys) {
    && (forall t: nat :: PcObserved(cfg, w, PcOf(s, t)))
    && CaughtUp(s, w) == Undeleted(TableAt(s, w))
  }

  lemma MoverObserved(cfg: Config, w: string, s: Sys, step: Step)
    requires MovesThread(step) && Apply(cfg, s, step).Some? && StepObserved(cfg, w, step)
    requires PcObserved(cfg, w, PcOf(s, step.t)) && PcOk(cfg, w, TableAt(s, w), PcOf(s, step.t))
    ensures PcObserved(cfg, w, PcOf(Apply(cfg, s, step).value, step.t))
  {
  }

  lemma ObservedKeeps(cfg: Config, w: string, s: Sys, step: Step)
    requires Inv(cfg, w, s) && HistoryInv(cfg, w, s) && StepObserved(cfg, w, step)
    requires Apply(cfg, s, step).Some?
    ensures forall t: nat :: PcObserved(cfg, w, PcOf(Apply(cfg, s, step).value, t))
  {
    forall u: nat
      ensures PcObserved(cfg, w, PcOf(Apply(cfg, s, step).value, u))
    {
      assert PcObserved(cfg, w, PcOf(s, u)) && PcOk(cfg, w, TableAt(s, w), PcOf(s, u));
      if MovesThread(step) && step.t == u {
        MoverObserved(cfg, w, s, step);
      } else {
        OthersUnmoved(cfg, s, step, u);
      }
    }
  }

  lemma ReplayAppend(log: seq<Note>, note: Note, w: string)
    ensures Replay(log + [note], w) == ReplayNote(Replay(log, w), note, w)
  {
  }

  /** A thread that has just run a statement owes the replay of that statement. */
  lemma OwesItsStatement(w: string, s: Sys, s': Sys, t: nat, ins: Insert)
    requires s.holder == s'.holder == Some(t) && s'.log == s.log
    requires PcOf(s, t).Planned? && PcOf(s', t).Executed? && PcOf(s', t).flag == 0
    requires Target(PcOf(s', t).plan.sql) == w && Denote(PcOf(s', t).plan.sql, PcOf(s', t).plan.params) == Some(ins)
    requires Store.Execute(CaughtUp(s, w), ins).Some?
    ensures CaughtUp(s', w) == Store.Execute(CaughtUp(s, w), ins).value
  {
  }

  /** Running a statement on the watched table owes exactly the notification that repeats it. */
  lemma DoneOwes(cfg: Config, w: string, s: Sys, t: nat)
    requires Inv(cfg, w, s) && HistoryInv(cfg, w, s) && Apply(cfg, s, Execution(t, Done)).Some?
    requires Target(PcOf(s, t).plan.sql) == w
    ensures
      var s' := Apply(cfg, s, Execution(t, Done)).value;
      CaughtUp(s', w) == Undeleted(TableAt(s', w))
  {
    var s' := Apply(cfg, s, Execution(t, Done)).value;
    WatchedDone(cfg, w, s, t);
    var ins := Denote(PcOf(s, t).plan.sql, PcOf(s, t).plan.params).value;
    ExecuteUndeleted(TableAt(s, w), ins);
    OwesItsStatement(w, s, s', t, ins);
  }

  /** Any other end of a statement changes neither the table nor what is owed to it. */
  lemma OtherEndsOweNothing(cfg: Config, w: string, s: Sys, step: Step)
    requires Inv(cfg, w, s) && HistoryInv(cfg, w, s) && Apply(cfg, s, step).Some?
    requires (step.Execution? || step.Selection?) && !RunsOn(s, step, w)
    ensures
      var s' := Apply(cfg, s, step).value;
      CaughtUp(s', w) == CaughtUp(s, w) && TableAt(s', w) == TableAt(s, w)
  {
    var s', t := Apply(cfg, s, step).value, step.t;
    assert TableAt(s', w) == TableAt(s, w) && s'.log == s.log && s'.holder == s.holder;
    assert InCritical(PcOf(s, t)) <==> s.holder == Some(t);
    assert PcOk(cfg, w, TableAt(s, w), PcOf(s, t));
    if s.holder == Some(t) {
      assert Owed(s) == None;
    } else {
      assert s.holder.Some? ==> PcOf(s', s.holder.value) == PcOf(s, s.holder.value);
      assert Owed(s') == Owed(s);
    }
  }

  /** Telling the observer pays what was owed, and nothing else reaches the watched table. */
  lemma NotifyPays(cfg: Config, w: string, s: Sys, t: nat)
    requires Inv(cfg, w, s) && HistoryInv(cfg, w, s) && Apply(cfg, s, Notify(t)).Some?
    ensures
      var s' := Apply(cfg, s, Notify(t)).value;
      CaughtUp(s', w) == CaughtUp(s, w) && TableAt(s', w) == TableAt(s, w)
  {
    var s' := Apply(cfg, s, Notify(t)).value;
    var pc := PcOf(s, t);
    var note := Note(pc.plan.sql, pc.plan.params, pc.flag);
    assert PcOk(cfg, w, TableAt(s, w), pc) && PcObserved(cfg, w, pc);
    assert InCritical(pc) <==> s.holder == Some(t);
    if Notifies(cfg, pc.call) {
      ReplayAppend(s.log, note, w);
    } else {
      assert s.log + [] == s.log;
    }
    if pc.locked {
      assert Owed(s) == Some(note) && Owed(s') == None;
    } else {
      assert Target(pc.plan.sql) != w;
      assert Owed(s') == Owed(s);
    }
  }

  lemma OtherStepsOwe(cfg: Config, w: string, s: Sys, step: Step)
    requires Inv(cfg, w, s) && Apply(cfg, s, step).Some?
    requires !step.Execution? && !step.Selection? && !step.Notify?
    ensures CaughtUp(Apply(cfg, s, step).value, w) == CaughtUp(s, w)
  {
    var s' := Apply(cfg, s, step).value;
    if MovesThread(step) {
      assert InCritical(PcOf(s, step.t)) <==> s.holder == Some(step.t);
    }
    assert Owed(s') == Owed(s);
    assert s'.log == s.log;
  }

  lemma StepKeepsHistory(cfg: Config, w: string, s: Sys, step: Step)
    requires Inv(cfg, w, s) && HistoryInv(cfg, w, s) && ListedInv(w, s)
    requires StepOk(cfg, w, step) && StepObserved(cfg, w, step) && Apply(cfg, s, step).Some?
    ensures HistoryInv(cfg, w, Apply(cfg, s, step).value)
  {
    ObservedKeeps(cfg, w, s, step);
    if step.Selection? {
      NoSelection(cfg, w, s, step);
    }
    if RunsOn(s, step, w) {
      DoneOwes(cfg, w, s, step.t);
    } else {
      HistoryKept(cfg, w, s, step);
      if step.Execution? || step.Selection? {
        OtherEndsOweNothing(cfg, w, s, step);
      } else if step.Notify? {
        NotifyPays(cfg, w, s, step.t);
      } else {
        OtherStepsOwe(cfg, w, s, step);
      }
    }
  }

  lemma {:induction false} RunKeepsHistory(cfg: Config, w: string, s: Sys, steps: seq<Step>)
    requires Inv(cfg, w, s) && HistoryInv(cfg, w, s) && ListedInv(w, s)
    requires AllOk(cfg, w, steps) && AllListed(w, steps) && AllObserved(cfg, w, steps) && Run(cfg, s, steps).Some?
    ensures HistoryInv(cfg, w, Run(cfg, s, steps).value)
  {
    if steps != [] {
      var n := |steps| - 1;
      RunKeepsHistory(cfg, w, s, steps[..n]);
      RunKeeps(cfg, w, s, steps[..n]);
      RunKeepsListed(cfg, w, s, steps[..n]);
      StepKeepsHistory(cfg, w, Run(cfg, s, steps[..n]).value, steps[n]);
    }
  }

  // The rows, where nothing updates them

  ghost predicate NeverUpdated(w: string, steps: seq<Step>) {
    forall i :: 0 <= i < |steps| && steps[i].Update? ==> steps[i].table != w
  }

  ghost predicate NeverDeleted(w: string, steps: seq<Step>) {
    forall i :: 0 <= i < |steps| && steps[i].Delete? ==> steps[i].table != w
  }

  lemma StepKeepsRows(cfg: Config, w: string, s: Sys, step: Step)
    requires Inv(cfg, w, s) && Grown(TableAt(s, w)) && ListedInv(w, s)
    requires StepOk(cfg, w, step) && Apply(cfg, s, step).Some? && (step.Update? ==> step.table != w)
    ensures Grown(TableAt(Apply(cfg, s, step).value, w))
  {
    if step.Selection? {
      NoSelection(cfg, w, s, step);
    }
    if RunsOn(s, step, w) {
      WatchedDone(cfg, w, s, step.t);
      ExecuteKeepsGrown(TableAt(s, w), Denote(PcOf(s, step.t).plan.sql, PcOf(s, step.t).plan.params).value);
    } else if step.Delete? {
      DeleteKeepsGrown(TableAt(s, w), step.ids);
    } else {
      assert TableAt(Apply(cfg, s, step).value, w) == TableAt(s, w);
    }
  }

  lemma {:induction false} RunKeepsRows(cfg: Config, w: string, s: Sys, steps: seq<Step>)
    requires Inv(cfg, w, s) && Grown(TableAt(s, w)) && ListedInv(w, s)
    requires AllOk(cfg, w, steps) && AllListed(w, steps) && NeverUpdated(w, steps) && Run(cfg, s, steps).Some?
    ensures Grown(TableAt(Run(cfg, s, steps).value, w))
  {
    if steps != [] {
      var n := |steps| - 1;
      RunKeepsRows(cfg, w, s, steps[..n]);
      RunKeeps(cfg, w, s, steps[..n]);
      RunKeepsListed(cfg, w, s, steps[..n]);
      StepKeepsRows(cfg, w, Run(cfg, s, steps[..n]).value, steps[n]);
    }
  }

  lemma {:induction false} AppendAllDeletes(t: Table, rows: seq<Row>)
    ensures AppendAll(t, rows).deleted == t.deleted
    decreases rows
  {
    if rows != [] {
      var id := LastId(t) + 1;
      AppendAllDeletes(Table(t.rows[id := rows[0]], Some(id), t.inserted + [Entry(id, rows[0])], t.deleted), rows[1..]);
    }
  }

  lemma {:induction false} NothingDeleted(cfg: Config, w: string, s: Sys, steps: seq<Step>)
    requires TableAt(s, w).deleted == {} && AllOk(cfg, w, steps) && NeverDeleted(w, steps) && Run(cfg, s, steps).Some?
    ensures TableAt(Run(cfg, s, steps).value, w).deleted == {}
  {
    if steps != [] {
      var n := |steps| - 1;
      NothingDeleted(cfg, w, s, steps[..n]);
      assert StepOk(cfg, w, steps[n]);
      if steps[n].Selection? {
        AppendAllDeletes(TableAt(Run(cfg, s, steps[..n]).value, w), steps[n].chosen);
      }
    }
  }

  /** Under any interleaving, whenever the lock is free, replaying the flag-0 notifications in
      order on an empty replica has inserted the same rows with the same ids in the same order;
      unless rows were updated, they are the table's rows plus those deleted since, and with no
      deletion the table itself. */
  lemma ReplayReproduces(cfg: Config, w: string, s0: Sys, steps: seq<Step>)
    requires Quiet(s0) && TableAt(s0, w) == EMPTY_TABLE
    requires AllOk(cfg, w, steps) && AllListed(w, steps) && AllObserved(cfg, w, steps) && Run(cfg, s0, steps).Some?
    requires Run(cfg, s0, steps).value.holder == None
    ensures
      var s := Run(cfg, s0, steps).value;
      var replica, tab := Replay(s.log, w), TableAt(s, w);
      && replica.inserted == tab.inserted
      && replica.last == tab.last
      && (NeverUpdated(w, steps) ==> tab.rows == replica.rows - tab.deleted)
      && (NeverUpdated(w, steps) && NeverDeleted(w, steps) ==> tab.rows == replica.rows)
  {
    QuietInv(cfg, w, s0);
    assert Undeleted(EMPTY_TABLE) == EMPTY_TABLE;
    RunKeepsHistory(cfg, w, s0, steps);
    if NeverUpdated(w, steps) {
      RunKeepsRows(cfg, w, s0, steps);
    }
    if NeverDeleted(w, steps) {
      NothingDeleted(cfg, w, s0, steps);
    }
  }
}
