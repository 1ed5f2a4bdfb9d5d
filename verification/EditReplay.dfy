/**
 When a replica that follows every notification, of inserts and of edits, ends up with the table: the
 exact order of notifications, for all edits and for deletions; a discipline that gives that order;
 and a run where the replica diverges.
 */
module EditReplay {
  import opened Common
  import opened SqlText
  import opened Store
  import opened InsertProtocol
  import opened InsertThreads
  import opened InsertReplay
  import opened InsertRace
  import opened Edits
  import opened EditThreads

  // ---------------------------------------------------------------------------
  // Both histories insert the same rows

  ghost predicate Replicated(w: string, g: nat -> Edit, b: Both) {
    ReplayAll(b.told, w, g).rows == TableAt(b.sys, w).rows
  }

  /** While the lock is free the replica has been told of the inserts of the table, in the same order. */
  lemma SameInserts(cfg: Config, w: string, g: nat -> Edit, b: Both)
    requires BothInv(cfg, w, g, b) && b.sys.holder == None
    ensures InsertsOf(b.done) == InsertsOf(b.heard) == TableAt(b.sys, w).inserted
    ensures Increasing(InsertsOf(b.done))
    ensures Replicated(w, g, b) <==> Play(b.done, g) == Play(b.heard, g)
  {
    assert Owed(b.sys) == None;
  }

  lemma RunInserts(cfg: Config, w: string, g: nat -> Edit, b0: Both, acts: seq<Act>, b: Both)
    requires Fresh(w, b0) && AllActsOk(cfg, w, acts)
    requires RunActs(cfg, w, g, b0, acts) == Some(b) && b.sys.holder == None
    ensures InsertsOf(b.done) == InsertsOf(b.heard) == TableAt(b.sys, w).inserted
    ensures Increasing(InsertsOf(b.done)) && HaveColumns(InsertsOf(b.done))
    ensures Replicated(w, g, b) <==> Play(b.done, g) == Play(b.heard, g)
  {
    FreshInvariant(cfg, w, g, b0);
    ActsHaveColumns(cfg, w, g, b0, acts, b);
    ActsKeep(cfg, w, g, b0, acts, b);
    SameInserts(cfg, w, g, b);
  }

  /** Under any interleaving of inserts and deletions, whenever the lock is free: replaying all
      notifications in order gives the table's rows if and only if, for every inserted row, a deletion
      that selects it ran after its insert exactly when one was told after its insert was told. */
  lemma DeletionsReplayIff(
    cfg: Config, w: string, sel: (nat, Entry) -> bool, b0: Both, acts: seq<Act>, b: Both)
    requires Fresh(w, b0) && AllActsOk(cfg, w, acts)
    requires RunActs(cfg, w, ByRow(Deletes(sel)), b0, acts) == Some(b) && b.sys.holder == None
    ensures
      Replicated(w, ByRow(Deletes(sel)), b) <==>
      forall e :: e in TableAt(b.sys, w).inserted ==>
        (Selected(EditsAfter(b.done, e), sel, e) <==> Selected(EditsAfter(b.heard, e), sel, e))
  {
    RunInserts(cfg, w, ByRow(Deletes(sel)), b0, acts, b);
    SameSurvivorsIff(b.done, b.heard, sel);
  }

  /** The same for edits of any kind that treat every row on its own: exactly if, for every inserted
      row, the edits run after its insert and those told after its notification come to the same. */
  lemma EditsReplayIff(cfg: Config, w: string, h: nat -> RowEdit, b0: Both, acts: seq<Act>, b: Both)
    requires Fresh(w, b0) && AllActsOk(cfg, w, acts)
    requires RunActs(cfg, w, ByRow(h), b0, acts) == Some(b) && b.sys.holder == None
    ensures
      Replicated(w, ByRow(h), b) <==>
      forall e :: e in TableAt(b.sys, w).inserted ==> SameRowAfter(b.done, b.heard, h, e)
  {
    RunInserts(cfg, w, ByRow(h), b0, acts, b);
    SameRowsIff(b.done, b.heard, h);
  }

  // ---------------------------------------------------------------------------
  // The exact order, whatever the statements do

  /** The run is possible and its replica ends with the table when statement `n` does `g(n)`. */
  ghost predicate RunReplicates(cfg: Config, w: string, g: nat -> Edit, b0: Both, acts: seq<Act>) {
    var r := RunActs(cfg, w, g, b0, acts);
    r.Some? && Replicated(w, g, r.value)
  }

  ghost predicate AlwaysReplicates(cfg: Config, w: string, b0: Both, acts: seq<Act>) {
    forall k: nat -> Edit :: RunReplicates(cfg, w, k, b0, acts)
  }

  /** The same for statements that change values only. */
  ghost predicate AlwaysReplicatesSet(cfg: Config, w: string, b0: Both, acts: seq<Act>) {
    forall k: nat -> Edit :: AllKeepColumns(k) ==> RunReplicates(cfg, w, k, b0, acts)
  }

  ghost predicate AlwaysReplicatesDeletions(cfg: Config, w: string, b0: Both, acts: seq<Act>) {
    forall sel: (nat, Entry) -> bool :: RunReplicates(cfg, w, ByRow(Deletes(sel)), b0, acts)
  }

  lemma OtherMeaning(
    cfg: Config, w: string, g: nat -> Edit, k: nat -> Edit, b0: Both, acts: seq<Act>, b: Both)
    requires Fresh(w, b0) && AllActsOk(cfg, w, acts)
    requires RunActs(cfg, w, g, b0, acts) == Some(b) && b.sys.holder == None
    ensures RunReplicates(cfg, w, k, b0, acts) <==> Play(b.done, k) == Play(b.heard, k)
  {
    FreshInvariant(cfg, w, g, b0);
    FreshInvariant(cfg, w, k, b0);
    var c := RunsAlikeForAll(cfg, w, g, k, b0, acts, b);
    SameInserts(cfg, w, k, c);
  }

  lemma AlwaysIff(cfg: Config, w: string, g: nat -> Edit, b0: Both, acts: seq<Act>, b: Both)
    requires Fresh(w, b0) && AllActsOk(cfg, w, acts)
    requires RunActs(cfg, w, g, b0, acts) == Some(b) && b.sys.holder == None
    ensures AlwaysReplicates(cfg, w, b0, acts) <==> SameWhateverDone(b.done, b.heard)
    ensures AlwaysReplicatesSet(cfg, w, b0, acts) <==> SameWhateverSet(b.done, b.heard)
  {
    forall k: nat -> Edit
      ensures RunReplicates(cfg, w, k, b0, acts) <==> Play(b.done, k) == Play(b.heard, k)
    {
      OtherMeaning(cfg, w, g, k, b0, acts, b);
    }
  }

  lemma AlwaysDeletionsIff(cfg: Config, w: string, g: nat -> Edit, b0: Both, acts: seq<Act>, b: Both)
    requires Fresh(w, b0) && AllActsOk(cfg, w, acts)
    requires RunActs(cfg, w, g, b0, acts) == Some(b) && b.sys.holder == None
    ensures AlwaysReplicatesDeletions(cfg, w, b0, acts) <==> SameWhateverDeleted(b.done, b.heard)
  {
    forall sel: (nat, Entry) -> bool
      ensures RunReplicates(cfg, w, ByRow(Deletes(sel)), b0, acts) <==>
              Play(b.done, ByRow(Deletes(sel))) == Play(b.heard, ByRow(Deletes(sel)))
    {
      OtherMeaning(cfg, w, g, ByRow(Deletes(sel)), b0, acts, b);
    }
  }

  /** A schedule of inserts and edits whose replica ends with the table whatever the edits do: exactly
      one where, for every inserted row, the edits run after its insert and the edits told after its
      notification are the same in the same order; in other words, from the first insert on, one in
      which the changes are told in the order in which they were made. Statements that delete rows or
      change the values of existing columns are enough to tell any other schedule. */
  lemma ScheduleReplaysIff(cfg: Config, w: string, g: nat -> Edit, b0: Both, acts: seq<Act>, b: Both)
    requires Fresh(w, b0) && AllActsOk(cfg, w, acts)
    requires RunActs(cfg, w, g, b0, acts) == Some(b) && b.sys.holder == None
    ensures AlwaysReplicates(cfg, w, b0, acts) <==> SameEditsAfter(b.done, b.heard)
    ensures AlwaysReplicatesSet(cfg, w, b0, acts) <==> SameEditsAfter(b.done, b.heard)
    ensures AlwaysReplicates(cfg, w, b0, acts) <==> FromFirst(b.done) == FromFirst(b.heard)
  {
    RunInserts(cfg, w, g, b0, acts, b);
    AlwaysIff(cfg, w, g, b0, acts, b);
    EditOrderIff(b.done, b.heard);
    SameOrderIff(b.done, b.heard);
  }

  /** The same with deletions only: they may be told in any order, as long as the same ones ran after
      each insert and were told after its notification. */
  lemma DeletionScheduleReplaysIff(cfg: Config, w: string, g: nat -> Edit, b0: Both, acts: seq<Act>, b: Both)
    requires Fresh(w, b0) && AllActsOk(cfg, w, acts)
    requires RunActs(cfg, w, g, b0, acts) == Some(b) && b.sys.holder == None
    ensures AlwaysReplicatesDeletions(cfg, w, b0, acts) <==> SameEditSets(b.done, b.heard)
  {
    RunInserts(cfg, w, g, b0, acts, b);
    AlwaysDeletionsIff(cfg, w, g, b0, acts, b);
    DeletionOrderIff(b.done, b.heard);
  }

  // ---------------------------------------------------------------------------
  // A discipline that gives that order

  /** No statement runs on the watched table while an edit of it is owed, and no edit runs while an insert is. */
  ghost predicate Alone(w: string, b: Both, act: Act) {
    match act
    case Inner(step) => RunsOn(b.sys, step, w) ==> b.owing == map[]
    case EditRun(_, _) => b.owing == map[] && OwedInsert(w, b.sys) == []
    case EditTold(_) => true
  }

  ghost predicate AloneAfter(cfg: Config, w: string, g: nat -> Edit, b: Both, before: seq<Act>, act: Act) {
    var r := RunActs(cfg, w, g, b, before);
    r.Some? ==> Alone(w, r.value, act)
  }

  ghost predicate AloneThroughout(cfg: Config, w: string, g: nat -> Edit, b: Both, acts: seq<Act>) {
    forall i :: 0 <= i < |acts| ==> AloneAfter(cfg, w, g, b, acts[..i], acts[i])
  }

  /** The changes made are those told and the one owed. */
  ghost predicate InOrder(w: string, b: Both) {
    || (b.owing == map[] && b.done == b.heard + OwedInsert(w, b.sys))
    || (OwedInsert(w, b.sys) == [] && exists t ::
          t in b.owing && b.owing == map[t := b.owing[t]] && b.done == b.heard + [Ed(b.owing[t])])
  }

  lemma EditOwesNothing(w: string, s: Sys, f: Edit)
    ensures OwedInsert(w, Put(s, w, EditTable(TableAt(s, w), f))) == OwedInsert(w, s)
  {
    var s' := Put(s, w, EditTable(TableAt(s, w), f));
    EditTableRows(TableAt(s, w), f);
    assert Owed(s') == Owed(s) && TableAt(s', w).inserted == TableAt(s, w).inserted;
  }

  lemma EditRunInOrder(cfg: Config, w: string, g: nat -> Edit, b: Both, t: nat, n: nat, b': Both)
    requires InOrder(w, b) && Alone(w, b, EditRun(t, n)) && Perform(cfg, w, g, b, EditRun(t, n)) == Some(b')
    ensures InOrder(w, b')
  {
    EditOwesNothing(w, b.sys, g(n));
    assert b.heard + [] == b.heard;
    assert b'.owing == map[t := b'.owing[t]];
  }

  lemma EditToldInOrder(cfg: Config, w: string, g: nat -> Edit, b: Both, t: nat, b': Both)
    requires InOrder(w, b) && Perform(cfg, w, g, b, EditTold(t)) == Some(b')
    ensures InOrder(w, b')
  {
    assert b.owing != map[];
    assert b'.owing == map[];
    assert b'.heard + [] == b'.heard;
  }

  lemma RunOwes(cfg: Config, w: string, s: Sys, t: nat)
    requires Inv(cfg, w, s) && Apply(cfg, s, Execution(t, Done)).Some? && Target(PcOf(s, t).plan.sql) == w
    ensures
      var s' := Apply(cfg, s, Execution(t, Done)).value;
      OwedInsert(w, s) == [] && OwedInsert(w, s') == NewChange(s, Execution(t, Done), s', w)
  {
    WatchedDone(cfg, w, s, t);
    assert Owed(s) == None;
  }

  lemma RunInOrder(cfg: Config, w: string, g: nat -> Edit, b: Both, t: nat, b': Both)
    requires Inv(cfg, w, b.sys) && InOrder(w, b) && b.owing == map[]
    requires Perform(cfg, w, g, b, Inner(Execution(t, Done))) == Some(b') && Target(PcOf(b.sys, t).plan.sql) == w
    ensures InOrder(w, b')
  {
    RunOwes(cfg, w, b.sys, t);
    QuietLogs(cfg, w, g, b, Execution(t, Done), b');
    assert b.heard + [] == b.heard;
  }

  /** After its notification a thread owes nothing. */
  lemma NotifySettles(cfg: Config, w: string, s: Sys, t: nat, s': Sys)
    requires Inv(cfg, w, s) && Apply(cfg, s, Notify(t)) == Some(s')
    ensures OwedInsert(w, s') == if s.holder == Some(t) then [] else OwedInsert(w, s)
  {
    assert TableAt(s', w) == TableAt(s, w) && s'.holder == s.holder;
    if s.holder == Some(t) {
      assert Owed(s') == None;
    } else {
      assert s.holder.Some? ==> PcOf(s', s.holder.value) == PcOf(s, s.holder.value);
      assert Owed(s') == Owed(s);
    }
  }

  lemma SilentOwesNothing(cfg: Config, w: string, s: Sys, t: nat)
    requires HistoryInv(cfg, w, s) && PcOf(s, t).Executed? && !Notifies(cfg, PcOf(s, t).call) && s.holder == Some(t)
    ensures OwedInsert(w, s) == []
  {
    assert PcObserved(cfg, w, PcOf(s, t));
  }

  lemma NotifyPaysInOrder(w: string, b: Both, b': Both, owed: seq<Change>, paid: seq<Change>, rest: seq<Change>)
    requires InOrder(w, b) && b'.owing == b.owing && b'.done == b.done && b'.heard == b.heard + paid
    requires owed == OwedInsert(w, b.sys) && rest == OwedInsert(w, b'.sys) && owed == paid + rest
    ensures InOrder(w, b')
  {
    assert b.heard + (paid + rest) == (b.heard + paid) + rest;
    if owed == [] {
      assert paid == [] && rest == [] && b.heard + paid == b.heard;
    }
  }

  lemma NotifyInOrder(cfg: Config, w: string, g: nat -> Edit, b: Both, t: nat, b': Both)
    requires Inv(cfg, w, b.sys) && HistoryInv(cfg, w, b.sys) && InOrder(w, b)
    requires Perform(cfg, w, g, b, Inner(Notify(t))) == Some(b')
    ensures InOrder(w, b')
  {
    var owed := OwedInsert(w, b.sys);
    var paid := if b.sys.holder == Some(t) then owed else [];
    var rest := if b.sys.holder == Some(t) then [] else owed;
    NotifyFields(cfg, w, g, b, t, b');
    InnerFields(cfg, w, g, b, Notify(t), b');
    NotifySettles(cfg, w, b.sys, t, b'.sys);
    if !Notifies(cfg, PcOf(b.sys, t).call) {
      if b.sys.holder == Some(t) {
        SilentOwesNothing(cfg, w, b.sys, t);
      }
      assert b.heard + [] == b.heard;
    }
    assert owed == paid + rest;
    NotifyPaysInOrder(w, b, b', owed, paid, rest);
  }

  /** Every other step of an insert changes neither history and owes nothing new. */
  lemma OtherInOrder(cfg: Config, w: string, g: nat -> Edit, b: Both, step: Step, b': Both)
    requires Inv(cfg, w, b.sys) && ActOk(cfg, w, Inner(step)) && Perform(cfg, w, g, b, Inner(step)) == Some(b')
    requires !RunsOn(b.sys, step, w) && !step.Notify?
    ensures b'.owing == b.owing && b'.done == b.done && b'.heard == b.heard
    ensures OwedInsert(w, b'.sys) == OwedInsert(w, b.sys)
  {
    InnerFields(cfg, w, g, b, step, b');
    QuietLogs(cfg, w, g, b, step, b');
    assert b'.done == b.done + [] == b.done;
    TableKept(cfg, w, b.sys, step);
    if step.Execution? || step.Selection? {
      OtherEndOwes(cfg, w, b.sys, step, b'.sys);
    } else {
      OwedKept(cfg, w, b.sys, step);
    }
  }

  lemma OtherEndOwes(cfg: Config, w: string, s: Sys, step: Step, s': Sys)
    requires Inv(cfg, w, s) && Apply(cfg, s, step) == Some(s') && TableAt(s', w) == TableAt(s, w)
    requires (step.Execution? || step.Selection?) && !RunsOn(s, step, w)
    ensures OwedInsert(w, s') == OwedInsert(w, s)
  {
    var t := step.t;
    assert s'.holder == s.holder;
    assert PcOk(cfg, w, TableAt(s, w), PcOf(s, t));
    assert InCritical(PcOf(s, t)) <==> s.holder == Some(t);
    if s.holder != Some(t) {
      assert s.holder.Some? ==> PcOf(s', s.holder.value) == PcOf(s, s.holder.value);
      assert Owed(s') == Owed(s);
    } else {
      assert Owed(s) == None;
    }
  }

  lemma InnerInOrder(cfg: Config, w: string, g: nat -> Edit, b: Both, step: Step, b': Both)
    requires SysInv(cfg, w, b.sys) && InOrder(w, b) && ActOk(cfg, w, Inner(step)) && Alone(w, b, Inner(step))
    requires Perform(cfg, w, g, b, Inner(step)) == Some(b')
    ensures InOrder(w, b')
  {
    if step.Selection? {
      NoSelection(cfg, w, b.sys, step);
    }
    if RunsOn(b.sys, step, w) {
      RunInOrder(cfg, w, g, b, step.t, b');
    } else if step.Notify? {
      NotifyInOrder(cfg, w, g, b, step.t, b');
    } else {
      OtherInOrder(cfg, w, g, b, step, b');
    }
  }

  lemma PerformInOrder(cfg: Config, w: string, g: nat -> Edit, b: Both, act: Act, b': Both)
    requires SysInv(cfg, w, b.sys) && InOrder(w, b) && ActOk(cfg, w, act) && Alone(w, b, act)
    requires Perform(cfg, w, g, b, act) == Some(b')
    ensures InOrder(w, b')
  {
    match act
    case EditRun(t, n) => EditRunInOrder(cfg, w, g, b, t, n, b');
    case EditTold(t) => EditToldInOrder(cfg, w, g, b, t, b');
    case Inner(step) => InnerInOrder(cfg, w, g, b, step, b');
  }

  lemma AlonePrefix(cfg: Config, w: string, g: nat -> Edit, b: Both, acts: seq<Act>, before: seq<Act>)
    requires acts != [] && before == acts[..|acts| - 1] && AloneThroughout(cfg, w, g, b, acts)
    ensures AloneThroughout(cfg, w, g, b, before) && AloneAfter(cfg, w, g, b, before, acts[|acts| - 1])
  {
    forall i | 0 <= i < |before|
      ensures AloneAfter(cfg, w, g, b, before[..i], before[i])
    {
      assert before[..i] == acts[..i] && before[i] == acts[i];
    }
  }

  lemma {:induction false} ActsInOrder(cfg: Config, w: string, g: nat -> Edit, b: Both, acts: seq<Act>, b': Both)
    requires BothInv(cfg, w, g, b) && InOrder(w, b) && AllActsOk(cfg, w, acts)
    requires AloneThroughout(cfg, w, g, b, acts) && RunActs(cfg, w, g, b, acts) == Some(b')
    ensures InOrder(w, b')
    decreases acts
  {
    if acts != [] {
      var before, m, last := LastAct(cfg, w, g, b, acts, b');
      AlonePrefix(cfg, w, g, b, acts, before);
      ActsInOrder(cfg, w, g, b, before, m);
      ActsKeep(cfg, w, g, b, before, m);
      PerformInOrder(cfg, w, g, m, last, b');
    }
  }

  lemma FreshInOrder(w: string, b: Both)
    requires Fresh(w, b)
    ensures InOrder(w, b)
  {
  }

  lemma NothingOwed(w: string, b: Both)
    requires InOrder(w, b) && b.sys.holder == None && b.owing == map[]
    ensures b.done == b.heard
  {
    assert Owed(b.sys) == None;
    assert b.heard + [] == b.heard;
  }

  /** If no statement runs on the watched table between an edit and its notification, and no edit
      between an insert and its notification, then, once everything is told, all changes were told in
      the order they were made, and replaying the notifications reproduces the table. */
  lemma OrderlyEditsReplay(cfg: Config, w: string, g: nat -> Edit, b0: Both, acts: seq<Act>, b: Both)
    requires Fresh(w, b0) && AllActsOk(cfg, w, acts) && AloneThroughout(cfg, w, g, b0, acts)
    requires RunActs(cfg, w, g, b0, acts) == Some(b) && b.sys.holder == None && b.owing == map[]
    ensures b.done == b.heard && Replicated(w, g, b)
    ensures ReplayAll(b.told, w, g).inserted == TableAt(b.sys, w).inserted
  {
    FreshInvariant(cfg, w, g, b0);
    FreshInOrder(w, b0);
    ActsInOrder(cfg, w, g, b0, acts, b);
    NothingOwed(w, b);
    ActsKeep(cfg, w, g, b0, acts, b);
    SameInserts(cfg, w, g, b);
  }

  // ---------------------------------------------------------------------------
  // Telling in turn

  /** Every change made is told, owed by a thread inside an edit, or owed by the lock holder. */
  ghost predicate Counted(w: string, b: Both) {
    |b.done| == |b.heard| + |b.owing| + |OwedInsert(w, b.sys)|
  }

  lemma EditRunCounted(cfg: Config, w: string, g: nat -> Edit, b: Both, t: nat, n: nat, b': Both)
    requires Counted(w, b) && Perform(cfg, w, g, b, EditRun(t, n)) == Some(b')
    ensures Counted(w, b')
  {
    EditOwesNothing(w, b.sys, g(n));
  }

  lemma EditToldCounted(cfg: Config, w: string, g: nat -> Edit, b: Both, t: nat, b': Both)
    requires Counted(w, b) && Perform(cfg, w, g, b, EditTold(t)) == Some(b')
    ensures Counted(w, b')
  {
    assert b.owing == b'.owing[t := b.owing[t]];
  }

  lemma NotifyCounted(cfg: Config, w: string, g: nat -> Edit, b: Both, t: nat, b': Both)
    requires Inv(cfg, w, b.sys) && HistoryInv(cfg, w, b.sys) && Counted(w, b)
    requires Perform(cfg, w, g, b, Inner(Notify(t))) == Some(b')
    ensures Counted(w, b')
  {
    NotifyFields(cfg, w, g, b, t, b');
    InnerFields(cfg, w, g, b, Notify(t), b');
    NotifySettles(cfg, w, b.sys, t, b'.sys);
    if !Notifies(cfg, PcOf(b.sys, t).call) && b.sys.holder == Some(t) {
      SilentOwesNothing(cfg, w, b.sys, t);
    }
  }

  lemma PerformCounted(cfg: Config, w: string, g: nat -> Edit, b: Both, act: Act, b': Both)
    requires SysInv(cfg, w, b.sys) && Counted(w, b) && ActOk(cfg, w, act) && Perform(cfg, w, g, b, act) == Some(b')
    ensures Counted(w, b')
  {
    match act
    case EditRun(t, n) => EditRunCounted(cfg, w, g, b, t, n, b');
    case EditTold(t) => EditToldCounted(cfg, w, g, b, t, b');
    case Inner(step) =>
      if step.Selection? {
        NoSelection(cfg, w, b.sys, step);
      }
      if RunsOn(b.sys, step, w) {
        RunOwes(cfg, w, b.sys, step.t);
        QuietLogs(cfg, w, g, b, step, b');
      } else if step.Notify? {
        NotifyCounted(cfg, w, g, b, step.t, b');
      } else {
        OtherInOrder(cfg, w, g, b, step, b');
      }
  }

  lemma {:induction false} ActsCounted(cfg: Config, w: string, g: nat -> Edit, b: Both, acts: seq<Act>, b': Both)
    requires BothInv(cfg, w, g, b) && Counted(w, b) && AllActsOk(cfg, w, acts)
    requires RunActs(cfg, w, g, b, acts) == Some(b')
    ensures Counted(w, b')
    decreases acts
  {
    if acts != [] {
      var before, m, last := LastAct(cfg, w, g, b, acts, b');
      ActsCounted(cfg, w, g, b, before, m);
      ActsKeep(cfg, w, g, b, before, m);
      PerformCounted(cfg, w, g, m, last, b');
    }
  }

  /** Histories only grow. */
  lemma {:induction false} HistoriesGrow(
    cfg: Config, w: string, g: nat -> Edit, b: Both, acts: seq<Act>, b': Both, i: nat) returns (m: Both)
    requires RunActs(cfg, w, g, b, acts) == Some(b') && i <= |acts|
    ensures RunActs(cfg, w, g, b, acts[..i]) == Some(m) && m.done <= b'.done && m.heard <= b'.heard
    decreases acts
  {
    if i == |acts| {
      m := b';
      assert acts[..i] == acts;
    } else {
      var before := acts[..|acts| - 1];
      m := HistoriesGrow(cfg, w, g, b, before, RunActs(cfg, w, g, b, before).value, i);
      assert before[..i] == acts[..i];
    }
  }

  ghost predicate InTurnAfter(cfg: Config, w: string, g: nat -> Edit, b: Both, before: seq<Act>) {
    var r := RunActs(cfg, w, g, b, before);
    r.Some? ==> r.value.heard <= r.value.done
  }

  /** At every point of the run the oldest changes have been told, and nothing else. */
  ghost predicate InTurnThroughout(cfg: Config, w: string, g: nat -> Edit, b: Both, acts: seq<Act>) {
    forall i :: 0 <= i <= |acts| ==> InTurnAfter(cfg, w, g, b, acts[..i])
  }

  lemma FreshCounted(w: string, b: Both)
    requires Fresh(w, b)
    ensures Counted(w, b)
  {
  }

  /** Once everything is told: the changes were told in the order they were made if and only if every
      notification told the oldest change not yet told. */
  lemma ToldInTurnIff(cfg: Config, w: string, g: nat -> Edit, b0: Both, acts: seq<Act>, b: Both)
    requires Fresh(w, b0) && AllActsOk(cfg, w, acts)
    requires RunActs(cfg, w, g, b0, acts) == Some(b) && b.sys.holder == None && b.owing == map[]
    ensures b.done == b.heard <==> InTurnThroughout(cfg, w, g, b0, acts)
  {
    FreshInvariant(cfg, w, g, b0);
    FreshCounted(w, b0);
    if b.done == b.heard {
      forall i | 0 <= i <= |acts|
        ensures InTurnAfter(cfg, w, g, b0, acts[..i])
      {
        var m := HistoriesGrow(cfg, w, g, b0, acts, b, i);
        ActsCounted(cfg, w, g, b0, acts[..i], m);
      }
    }
    if InTurnThroughout(cfg, w, g, b0, acts) {
      assert acts[..|acts|] == acts;
      ActsCounted(cfg, w, g, b0, acts, b);
      assert Owed(b.sys) == None;
      assert |b.heard| == |b.done|;
    }
  }

  // ---------------------------------------------------------------------------
  // A run that diverges

  lemma {:induction false} ActsConcat(cfg: Config, w: string, g: nat -> Edit, b: Both, one: seq<Act>, two: seq<Act>)
    requires RunActs(cfg, w, g, b, one).Some?
    ensures RunActs(cfg, w, g, b, one + two) == RunActs(cfg, w, g, RunActs(cfg, w, g, b, one).value, two)
  {
    if two == [] {
      assert one + two == one;
    } else {
      var n := |two| - 1;
      ActsConcat(cfg, w, g, b, one, two[..n]);
      assert (one + two)[..|one + two| - 1] == one + two[..n];
    }
  }

  function Inners(steps: seq<Step>): seq<Act> {
    seq(|steps|, i requires 0 <= i < |steps| => Inner(steps[i]))
  }

  ghost predicate AllIns(cs: seq<Change>) { forall i :: 0 <= i < |cs| ==> cs[i].Ins? }

  /** The insertions the steps of inserts have added to both histories, and nothing else. */
  ghost predicate Added(b: Both, b': Both, xs: seq<Change>, ys: seq<Change>) {
    && b'.owing == b.owing && b'.done == b.done + xs && b'.heard == b.heard + ys
    && AllIns(xs) && AllIns(ys)
  }

  lemma InnerStepAdds(cfg: Config, w: string, g: nat -> Edit, b: Both, step: Step)
    returns (b': Both, x: seq<Change>, y: seq<Change>)
    requires Apply(cfg, b.sys, step).Some? && (step.Begin? ==> step.t !in b.owing)
    ensures Perform(cfg, w, g, b, Inner(step)) == Some(b') && Apply(cfg, b.sys, step) == Some(b'.sys)
    ensures Added(b, b', x, y)
  {
    b' := Perform(cfg, w, g, b, Inner(step)).value;
    InnerFields(cfg, w, g, b, step, b');
    x, y := NewChange(b.sys, step, b'.sys, w), NewHeard(cfg, w, b.sys, step);
  }

  lemma RunSplit(cfg: Config, s: Sys, steps: seq<Step>, r: Sys) returns (m: Sys)
    requires steps != [] && Run(cfg, s, steps) == Some(r)
    ensures Run(cfg, s, steps[..|steps| - 1]) == Some(m) && Apply(cfg, m, steps[|steps| - 1]) == Some(r)
  {
    m := Run(cfg, s, steps[..|steps| - 1]).value;
  }

  lemma ActsSnoc(cfg: Config, w: string, g: nat -> Edit, b: Both, acts: seq<Act>, act: Act, b1: Both, b': Both)
    requires RunActs(cfg, w, g, b, acts) == Some(b1) && Perform(cfg, w, g, b1, act) == Some(b')
    ensures RunActs(cfg, w, g, b, acts + [act]) == Some(b')
  {
    assert (acts + [act])[..|acts|] == acts;
  }

  lemma AddedTwice(b: Both, b1: Both, b': Both, xs: seq<Change>, ys: seq<Change>, x: seq<Change>, y: seq<Change>)
    requires Added(b, b1, xs, ys) && Added(b1, b', x, y)
    ensures Added(b, b', xs + x, ys + y)
  {
    assert (b.done + xs) + x == b.done + (xs + x) && (b.heard + ys) + y == b.heard + (ys + y);
  }

  lemma InnersSnoc(steps: seq<Step>)
    requires steps != []
    ensures Inners(steps) == Inners(steps[..|steps| - 1]) + [Inner(steps[|steps| - 1])]
  {
  }

  lemma {:induction false} InnerRun(cfg: Config, w: string, g: nat -> Edit, b: Both, steps: seq<Step>, r: Sys)
    returns (b': Both, xs: seq<Change>, ys: seq<Change>)
    requires Run(cfg, b.sys, steps) == Some(r)
    requires forall step :: step in steps && step.Begin? ==> step.t !in b.owing
    ensures RunActs(cfg, w, g, b, Inners(steps)) == Some(b') && b'.sys == r && Added(b, b', xs, ys)
    decreases steps
  {
    if steps == [] {
      b', xs, ys := b, [], [];
      assert b.done + [] == b.done && b.heard + [] == b.heard;
    } else {
      var before, last := steps[..|steps| - 1], steps[|steps| - 1];
      var m := RunSplit(cfg, b.sys, steps, r);
      assert forall step :: step in before ==> step in steps;
      var b1, xs1, ys1 := InnerRun(cfg, w, g, b, before, m);
      var x, y;
      b', x, y := InnerStepAdds(cfg, w, g, b1, last);
      ActsSnoc(cfg, w, g, b, Inners(before), Inner(last), b1, b');
      InnersSnoc(steps);
      xs, ys := xs1 + x, ys1 + y;
      AddedTwice(b, b1, b', xs1, ys1, x, y);
    }
  }

  lemma {:induction false} InsertsLength(cs: seq<Change>)
    requires AllIns(cs)
    ensures |InsertsOf(cs)| == |cs|
  {
    if cs != [] {
      InsertsLength(cs[..|cs| - 1]);
    }
  }

  lemma OnlyInsertion(cs: seq<Change>, e: Entry)
    requires AllIns(cs) && InsertsOf(cs) == [e]
    ensures cs == [Ins(e)]
  {
    InsertsLength(cs);
    assert cs[..0] == [] && cs == [cs[0]];
    assert InsertsOf(cs) == InsertsOf([]) + [cs[0].e];
    assert InsertsOf(cs)[0] == cs[0].e;
  }

  lemma {:induction false} InsertsConcat(a: seq<Change>, b: seq<Change>)
    ensures InsertsOf(a + b) == InsertsOf(a) + InsertsOf(b)
  {
    if b == [] {
      assert a + b == a;
    } else {
      var n := |b| - 1;
      InsertsConcat(a, b[..n]);
      assert (a + b)[..|a + b| - 1] == a + b[..n];
    }
  }

  /** The two histories of an edit that runs before an insert and is told after it. */
  lemma LateHistories(n: nat, e: Entry, xs: seq<Change>, ys: seq<Change>)
    requires AllIns(xs) && AllIns(ys)
    requires InsertsOf([Ed(n)] + xs) == InsertsOf(ys + [Ed(n)]) == [e]
    ensures [Ed(n)] + xs == [Ed(n), Ins(e)] && ys + [Ed(n)] == [Ins(e), Ed(n)]
  {
    InsertsConcat([Ed(n)], xs);
    InsertsConcat(ys, [Ed(n)]);
    assert [Ed(n)][..0] == [];
    OnlyInsertion(xs, e);
    OnlyInsertion(ys, e);
  }

  lemma PlayTwo(c: Change, d: Change, g: nat -> Edit)
    ensures Play([c, d], g) == Do(Do(map[], c, g), d, g)
  {
    assert [c, d][..1] == [c] && [c][..0] == [];
    assert Play([c], g) == Do(Play([], g), c, g);
  }

  lemma LateDeletionRows(g: nat -> Edit, n: nat, e: Entry)
    requires e.id !in g(n)(map[e.id := e.row])
    ensures Play([Ed(n), Ins(e)], g) == map[e.id := e.row] && Play([Ins(e), Ed(n)], g) == map[]
  {
    PlayTwo(Ed(n), Ins(e), g);
    PlayTwo(Ins(e), Ed(n), g);
    assert Edited(map[], g(n)) == map[];
    assert Edited(map[e.id := e.row], g(n)) == map[];
  }

  /** What the first insert of a call into an empty table means. */
  ghost function PlannedInsert(cfg: Config, call: Call): Insert {
    var plan := LockedPlan(cfg, call, NoRow);
    var ins := Denote(plan.sql, plan.params);
    if ins.Some? then ins.value else Insert([], [])
  }

  /** The entry it makes. */
  ghost function FirstEntry(cfg: Config, call: Call): Entry {
    Entry(IdFor(EMPTY_TABLE, PlannedInsert(cfg, call)), RowOf(PlannedInsert(cfg, call)))
  }

  /** One observed call from a quiet state with an empty watched table inserts one row. */
  lemma LoneCallInserts(cfg: Config, w: string, s: Sys, t: nat, call: Call)
    requires Quiet(s) && TableAt(s, w) == EMPTY_TABLE
    requires WatchedCall(cfg, w, call) && Target(call.sql) == w && Denote(call.sql, call.params).Some?
    ensures
      var r := Run(cfg, s, WholeCall(t, call));
      r.Some? && r.value.holder == None && TableAt(r.value, w).inserted == [FirstEntry(cfg, call)]
  {
    var plan := LockedPlan(cfg, call, NoRow);
    assert Answer(cfg, s, call, true) == NoRow;
    assert PlanCurrent(cfg, call, plan, EMPTY_TABLE);
    PlanAbove(cfg, w, call, plan, EMPTY_TABLE);
    PlanTarget(cfg, call, NoRow);
    SoloCall(cfg, s, t, call, true, Done);
    SoloUpToStep(cfg, s, t, call, true, Done);
  }

  lemma LoneCallOk(cfg: Config, w: string, t: nat, call: Call)
    requires CallOk(cfg, w, call) && Notifies(cfg, call) && TwoParens(call.sql)
    ensures AllActsOk(cfg, w, Inners(WholeCall(t, call)))
    ensures forall step :: step in WholeCall(t, call) && step.Begin? ==> step.t == t
  {
    assert WholeCall(t, call) ==
           [Begin(t, call), Acquire(t), Read(t, true), Execution(t, Done), Notify(t), Release(t)];
  }

  function LateEdit(t: nat, u: nat, call: Call, n: nat): seq<Act> {
    [EditRun(u, n)] + Inners(WholeCall(t, call)) + [EditTold(u)]
  }

  lemma LateEditOk(cfg: Config, w: string, t: nat, u: nat, call: Call, n: nat)
    requires CallOk(cfg, w, call) && Notifies(cfg, call) && TwoParens(call.sql)
    ensures AllActsOk(cfg, w, LateEdit(t, u, call, n))
  {
    LoneCallOk(cfg, w, t, call);
    var acts, inner := LateEdit(t, u, call, n), Inners(WholeCall(t, call));
    assert forall i :: 0 < i <= |inner| ==> acts[i] == inner[i - 1];
  }

  /** An ordinary observed insert of listed values. */
  ghost predicate Ordinary(cfg: Config, w: string, call: Call) {
    && WatchedCall(cfg, w, call) && Target(call.sql) == w && TwoParens(call.sql) && Notifies(cfg, call)
    && Denote(call.sql, call.params).Some?
  }

  lemma EditFirst(cfg: Config, w: string, g: nat -> Edit, b0: Both, u: nat, n: nat) returns (b1: Both)
    requires Fresh(w, b0)
    ensures RunActs(cfg, w, g, b0, [EditRun(u, n)]) == Some(b1)
    ensures Quiet(b1.sys) && TableAt(b1.sys, w) == EMPTY_TABLE
    ensures b1.owing == map[u := n] && b1.done == [Ed(n)] && b1.heard == []
  {
    assert EditTable(EMPTY_TABLE, g(n)) == EMPTY_TABLE;
    assert [EditRun(u, n)][..0] == [];
    b1 := Perform(cfg, w, g, b0, EditRun(u, n)).value;
  }

  lemma InsertSecond(cfg: Config, w: string, g: nat -> Edit, b1: Both, t: nat, u: nat, call: Call, n: nat)
    returns (b2: Both, xs: seq<Change>, ys: seq<Change>)
    requires Quiet(b1.sys) && TableAt(b1.sys, w) == EMPTY_TABLE && t != u && Ordinary(cfg, w, call)
    requires b1.owing == map[u := n] && b1.done == [Ed(n)] && b1.heard == []
    ensures RunActs(cfg, w, g, b1, Inners(WholeCall(t, call))) == Some(b2) && b2.owing == b1.owing
    ensures b2.sys.holder == None && TableAt(b2.sys, w).inserted == [FirstEntry(cfg, call)]
    ensures b2.done == [Ed(n)] + xs && b2.heard == ys && AllIns(xs) && AllIns(ys)
  {
    LoneCallInserts(cfg, w, b1.sys, t, call);
    LoneCallOk(cfg, w, t, call);
    b2, xs, ys := InnerRun(cfg, w, g, b1, WholeCall(t, call), Run(cfg, b1.sys, WholeCall(t, call)).value);
    assert [] + ys == ys;
  }

  lemma EditLast(
    cfg: Config, w: string, g: nat -> Edit, b0: Both, acts: seq<Act>, b2: Both, u: nat, n: nat) returns (b: Both)
    requires RunActs(cfg, w, g, b0, acts) == Some(b2) && b2.owing == map[u := n]
    ensures RunActs(cfg, w, g, b0, acts + [EditTold(u)]) == Some(b)
    ensures b == b2.(owing := map[], heard := b2.heard + [Ed(n)], told := b2.told + [ToldEdit(n)])
  {
    assert b2.owing - {u} == map[];
    b := Perform(cfg, w, g, b2, EditTold(u)).value;
    ActsSnoc(cfg, w, g, b0, acts, EditTold(u), b2, b);
  }

  /** The run exists: an edit, a whole insert with its notification, the notification of the edit. */
  lemma LateEditRuns(cfg: Config, w: string, g: nat -> Edit, b0: Both, t: nat, u: nat, call: Call, n: nat)
    returns (b: Both, xs: seq<Change>, ys: seq<Change>)
    requires Fresh(w, b0) && t != u && Ordinary(cfg, w, call)
    ensures RunActs(cfg, w, g, b0, LateEdit(t, u, call, n)) == Some(b) && b.owing == map[] && b.sys.holder == None
    ensures TableAt(b.sys, w).inserted == [FirstEntry(cfg, call)]
    ensures b.done == [Ed(n)] + xs && b.heard == ys + [Ed(n)] && AllIns(xs) && AllIns(ys)
  {
    var b1 := EditFirst(cfg, w, g, b0, u, n);
    var b2;
    b2, xs, ys := InsertSecond(cfg, w, g, b1, t, u, call, n);
    ActsConcat(cfg, w, g, b0, [EditRun(u, n)], Inners(WholeCall(t, call)));
    b := EditLast(cfg, w, g, b0, [EditRun(u, n)] + Inners(WholeCall(t, call)), b2, u, n);
  }

  /** A deletion that runs before an insert and is told after it: the table keeps the row, the replica
      that follows all notifications does not. */
  lemma LateDeletionDiverges(cfg: Config, w: string, g: nat -> Edit, b0: Both, t: nat, u: nat, call: Call, n: nat)
    returns (b: Both)
    requires Fresh(w, b0) && t != u && Ordinary(cfg, w, call)
    requires
      var e := FirstEntry(cfg, call);
      e.id !in g(n)(map[e.id := e.row])
    ensures RunActs(cfg, w, g, b0, LateEdit(t, u, call, n)) == Some(b) && AllActsOk(cfg, w, LateEdit(t, u, call, n))
    ensures b.sys.holder == None && b.owing == map[]
    ensures
      var e := FirstEntry(cfg, call);
      && b.done == [Ed(n), Ins(e)] && b.heard == [Ins(e), Ed(n)]
      && TableAt(b.sys, w).rows == map[e.id := e.row] && ReplayAll(b.told, w, g).rows == map[]
  {
    var xs, ys;
    b, xs, ys := LateEditRuns(cfg, w, g, b0, t, u, call, n);
    LateEditOk(cfg, w, t, u, call, n);
    LateEditEnds(cfg, w, g, b0, LateEdit(t, u, call, n), b, n, FirstEntry(cfg, call), xs, ys);
  }

  lemma LateEditEnds(
    cfg: Config, w: string, g: nat -> Edit, b0: Both, acts: seq<Act>, b: Both, n: nat, e: Entry,
    xs: seq<Change>, ys: seq<Change>)
    requires Fresh(w, b0) && AllActsOk(cfg, w, acts)
    requires RunActs(cfg, w, g, b0, acts) == Some(b) && b.sys.holder == None
    requires TableAt(b.sys, w).inserted == [e] && e.id !in g(n)(map[e.id := e.row])
    requires b.done == [Ed(n)] + xs && b.heard == ys + [Ed(n)] && AllIns(xs) && AllIns(ys)
    ensures b.done == [Ed(n), Ins(e)] && b.heard == [Ins(e), Ed(n)]
    ensures TableAt(b.sys, w).rows == map[e.id := e.row] && ReplayAll(b.told, w, g).rows == map[]
  {
    FreshInvariant(cfg, w, g, b0);
    ActsKeep(cfg, w, g, b0, acts, b);
    SameInserts(cfg, w, g, b);
    LateHistories(n, e, xs, ys);
    LateDeletionRows(g, n, e);
  }
}
