/**
 Any number of threads inside `sqllite_insert` (P2P_Server_src/db_sqlite.cpp), interleaved step by
 step, with deletions, updates and foreign changes of the database in between.
 */
module InsertThreads {
  import opened Common
  import opened SqlText
  import opened Store
  import opened InsertProtocol

  datatype Pc =
    | Idle
    | Waiting(call: Call)
    | Holding(call: Call)
    | Planned(call: Call, plan: Plan, locked: bool)
    | Executed(call: Call, plan: Plan, flag: int, locked: bool)
    | Leaving(rc: int, id: Option<int>, locked: bool)

  datatype Sys = Sys(threads: map<nat, Pc>, holder: Option<nat>, store: map<string, Table>, log: seq<Note>)

  datatype Step =
    | Begin(t: nat, call: Call)
    | Acquire(t: nat)
    | Read(t: nat, ok: bool)
    | Execution(t: nat, outcome: Outcome)
    | Selection(t: nat, chosen: seq<Row>)
    | Notify(t: nat)
    | Release(t: nat)
    | Delete(table: string, ids: set<int>)
    | Update(table: string, rows: map<int, Row>)
    | Foreign(table: string, contents: Table)

  function PcOf(s: Sys, t: nat): Pc { if t in s.threads then s.threads[t] else Idle }

  function Go(s: Sys, t: nat, pc: Pc): Sys { s.(threads := s.threads[t := pc]) }

  function TableAt(s: Sys, name: string): Table { if name in s.store then s.store[name] else EMPTY_TABLE }

  function Put(s: Sys, name: string, t: Table): Sys { s.(store := s.store[name := t]) }

  function ReadOf(t: Table): SeqRead { if t.last.Some? then SeqRow(t.last.value) else NoRow }

  /** What the sequence query of a call answers: from the table the slot scan found. */
  function Answer(cfg: Config, s: Sys, call: Call, ok: bool): SeqRead {
    var m := FirstMatch(cfg.slots, call.sql);
    if !ok || m == None then ReadError else ReadOf(TableAt(s, m.value))
  }

  /** The table a plan leaves behind, or None if the statement is not understood or collides. */
  function Ran(s: Sys, plan: Plan): Option<Table> {
    var ins := Denote(plan.sql, plan.params);
    if ins == None then None else Store.Execute(TableAt(s, Target(plan.sql)), ins.value)
  }

  /** One step of the system, or None where the step is not possible. */
  function Apply(cfg: Config, s: Sys, step: Step): Option<Sys> {
    match step
    case Begin(t, call) =>
      if PcOf(s, t) != Idle then None
      else Some(Go(s, t, if Locks(cfg, call) then Waiting(call) else Planned(call, AsGiven(call, 0), false)))
    case Acquire(t) =>
      if !PcOf(s, t).Waiting? || s.holder != None then None
      else Some(Go(s, t, Holding(PcOf(s, t).call)).(holder := Some(t)))
    case Read(t, ok) =>
      if !PcOf(s, t).Holding? then None
      else
        var call := PcOf(s, t).call;
        Some(Go(s, t, Planned(call, LockedPlan(cfg, call, Answer(cfg, s, call, ok)), true)))
    case Execution(t, outcome) =>
      if !PcOf(s, t).Planned? then None
      else
        var pc := PcOf(s, t);
        if outcome == Failed then Some(Go(s, t, Leaving(-1, None, pc.locked)))
        else if outcome != Done then Some(Go(s, t, Executed(pc.call, Settled(pc.call, pc.plan, outcome), 2, pc.locked)))
        else if Ran(s, pc.plan) == None then None
        else Some(Put(Go(s, t, Executed(pc.call, pc.plan, 0, pc.locked)), Target(pc.plan.sql), Ran(s, pc.plan).value))
    case Selection(t, chosen) =>
      if !PcOf(s, t).Planned? || PcOf(s, t).plan.rewritten || TwoParens(PcOf(s, t).plan.sql) then None
      else
        var pc := PcOf(s, t);
        Some(Put(Go(s, t, Executed(pc.call, pc.plan, 0, pc.locked)), Target(pc.plan.sql),
                 AppendAll(TableAt(s, Target(pc.plan.sql)), chosen)))
    case Notify(t) =>
      if !PcOf(s, t).Executed? then None
      else
        var pc := PcOf(s, t);
        Some(Go(s, t, Leaving(0, Written(pc.call, pc.plan), pc.locked))
             .(log := s.log + NotesFor(cfg, pc.call, pc.plan, pc.flag)))
    case Release(t) =>
      if !PcOf(s, t).Leaving? then None
      else Some(Go(s, t, Idle).(holder := if PcOf(s, t).locked then None else s.holder))
    case Delete(table, ids) => Some(Put(s, table, DeleteRows(TableAt(s, table), ids)))
    case Update(table, rows) =>
      if rows.Keys != TableAt(s, table).rows.Keys then None
      else Some(Put(s, table, TableAt(s, table).(rows := rows)))
    case Foreign(table, contents) => Some(Put(s, table, contents))
  }

  function Run(cfg: Config, s: Sys, steps: seq<Step>): Option<Sys> {
    if steps == [] then Some(s)
    else
      var n := |steps| - 1;
      var before := Run(cfg, s, steps[..n]);
      if before == None then None else Apply(cfg, before.value, steps[n])
  }

  /** The table a step changes, if any. */
  ghost function Touched(s: Sys, step: Step): Option<string> {
    match step
    case Execution(t, outcome) =>
      if outcome == Done && PcOf(s, t).Planned? then Some(Target(PcOf(s, t).plan.sql)) else None
    case Selection(t, _) => if PcOf(s, t).Planned? then Some(Target(PcOf(s, t).plan.sql)) else None
    case Delete(table, _) => Some(table)
    case Update(table, _) => Some(table)
    case Foreign(table, _) => Some(table)
    case _ => None
  }

  /** Every step leaves the other tables alone; a change from outside does what it says and moves no thread. */
  lemma StepFrame(cfg: Config, s: Sys, step: Step, s': Sys, name: string)
    requires Apply(cfg, s, step) == Some(s')
    ensures Touched(s, step) != Some(name) ==> TableAt(s', name) == TableAt(s, name)
    ensures step.Delete? || step.Update? || step.Foreign? ==>
              s'.threads == s.threads && s'.holder == s.holder && s'.log == s.log
    ensures step.Delete? ==> TableAt(s', step.table).rows == TableAt(s, step.table).rows - step.ids
    ensures step.Update? ==> TableAt(s', step.table) == TableAt(s, step.table).(rows := step.rows)
    ensures step.Foreign? ==> TableAt(s', step.table) == step.contents
  {
  }

  // ---------------------------------------------------------------------------
  // Assumptions on the callers, step by step

  /** An insert into the watched table takes the lock, is matched to its own table, leaves the id
      open, and has the two-list shape unless it has one parenthesis only. */
  ghost predicate WatchedCall(cfg: Config, w: string, call: Call) {
    && Locks(cfg, call)
    && FirstMatch(cfg.slots, call.sql) == Some(w)
    && (TwoParens(call.sql) ==> Shape(call.sql))
    && (Denote(call.sql, call.params).Some? ==> LeavesIdOpen(Denote(call.sql, call.params).value))
  }

  ghost predicate CallOk(cfg: Config, w: string, call: Call) {
    Target(call.sql) == w ==> WatchedCall(cfg, w, call)
  }

  ghost predicate StepOk(cfg: Config, w: string, step: Step) {
    match step
    case Begin(_, call) => CallOk(cfg, w, call)
    case Foreign(table, _) => table != w
    case _ => true
  }

  ghost predicate AllOk(cfg: Config, w: string, steps: seq<Step>) {
    forall i :: 0 <= i < |steps| ==> StepOk(cfg, w, steps[i])
  }

  ghost predicate Quiet(s: Sys) { s.threads == map[] && s.holder == None && s.log == [] }

  // ---------------------------------------------------------------------------
  // The invariant

  predicate InCritical(pc: Pc) {
    pc.Holding? || ((pc.Planned? || pc.Executed? || pc.Leaving?) && pc.locked)
  }

  /** The plan was made from the sequence as it still is, or from a failed read. */
  ghost predicate PlanCurrent(cfg: Config, call: Call, plan: Plan, t: Table) {
    plan == LockedPlan(cfg, call, ReadOf(t)) || plan == LockedPlan(cfg, call, ReadError)
  }

  ghost predicate PcOk(cfg: Config, w: string, tab: Table, pc: Pc) {
    && (pc.Waiting? || pc.Holding? || pc.Planned? ==> CallOk(cfg, w, pc.call))
    && (pc.Planned? ==> Target(pc.plan.sql) == Target(pc.call.sql))
    && (pc.Planned? && Target(pc.call.sql) == w ==> pc.locked && PlanCurrent(cfg, pc.call, pc.plan, tab))
    && (pc.Executed? && Target(pc.plan.sql) == w ==> pc.locked)
  }

  ghost predicate Mutex(s: Sys) {
    forall t: nat :: InCritical(PcOf(s, t)) <==> s.holder == Some(t)
  }

  ghost predicate Inv(cfg: Config, w: string, s: Sys) {
    && Mutex(s)
    && GrownIds(TableAt(s, w))
    && (forall t: nat :: PcOk(cfg, w, TableAt(s, w), PcOf(s, t)))
  }

  lemma QuietInv(cfg: Config, w: string, s: Sys)
    requires Quiet(s) && GrownIds(TableAt(s, w))
    ensures Inv(cfg, w, s)
  {
  }

  /** Rewriting or not, a plan names the table its call names. */
  lemma PlanTarget(cfg: Config, call: Call, read: SeqRead)
    ensures Target(LockedPlan(cfg, call, read).sql) == Target(call.sql)
  {
    if TwoParens(call.sql) {
      TargetKept(call.sql);
    }
  }

  /** A current plan into the watched table means an id above the sequence, allocated or automatic. */
  lemma PlanAbove(cfg: Config, w: string, call: Call, plan: Plan, t: Table)
    requires WatchedCall(cfg, w, call) && PlanCurrent(cfg, call, plan, t) && GrownIds(t)
    ensures Denote(plan.sql, plan.params).Some? <==> Denote(call.sql, call.params).Some?
    ensures Denote(plan.sql, plan.params).Some? ==> IdFor(t, Denote(plan.sql, plan.params).value) > LastId(t)
    ensures Denote(plan.sql, plan.params).Some? && plan.rewritten ==>
            IdFor(t, Denote(plan.sql, plan.params).value) == plan.id == AllocatedId(ReadOf(t))
    ensures plan.rewritten ==> plan.id > LastId(t)
  {
    var ins := Denote(call.sql, call.params);
    if plan.rewritten {
      RewritePreserves(call.sql, plan.id, call.params);
      if ins.Some? {
        WithIdRow(plan.id, ins.value);
      }
    } else if ins.Some? {
      WithIdRow(0, ins.value);
    }
  }

  // ---------------------------------------------------------------------------
  // Every step keeps it

  lemma BeginKeeps(cfg: Config, w: string, s: Sys, t: nat, call: Call)
    requires Inv(cfg, w, s) && CallOk(cfg, w, call) && Apply(cfg, s, Begin(t, call)).Some?
    ensures Inv(cfg, w, Apply(cfg, s, Begin(t, call)).value)
  {
  }

  lemma AcquireKeeps(cfg: Config, w: string, s: Sys, t: nat)
    requires Inv(cfg, w, s) && Apply(cfg, s, Acquire(t)).Some?
    ensures Inv(cfg, w, Apply(cfg, s, Acquire(t)).value)
  {
  }

  lemma ReadKeeps(cfg: Config, w: string, s: Sys, t: nat, ok: bool)
    requires Inv(cfg, w, s) && Apply(cfg, s, Read(t, ok)).Some?
    ensures Inv(cfg, w, Apply(cfg, s, Read(t, ok)).value)
  {
    var s' := Apply(cfg, s, Read(t, ok)).value;
    var call := PcOf(s, t).call;
    assert forall u: nat :: u != t ==> PcOf(s', u) == PcOf(s, u);
    assert PcOk(cfg, w, TableAt(s, w), PcOf(s, t));
    assert InCritical(PcOf(s, t));
    PlanTarget(cfg, call, Answer(cfg, s, call, ok));
  }

  /** Only the lock holder can be about to run a statement on the watched table. */
  lemma OthersAway(cfg: Config, w: string, s: Sys, t: nat, u: nat)
    requires Inv(cfg, w, s) && s.holder == Some(t) && u != t
    ensures PcOf(s, u).Planned? ==> Target(PcOf(s, u).call.sql) != w
    ensures PcOf(s, u).Executed? ==> Target(PcOf(s, u).plan.sql) != w
  {
  }

  lemma DoneKeepsOther(cfg: Config, w: string, s: Sys, t: nat)
    requires Inv(cfg, w, s) && Apply(cfg, s, Execution(t, Done)).Some?
    requires Target(PcOf(s, t).plan.sql) != w
    ensures Inv(cfg, w, Apply(cfg, s, Execution(t, Done)).value)
  {
  }

  /** What a done step on the watched table amounts to. */
  lemma WatchedDone(cfg: Config, w: string, s: Sys, t: nat)
    requires Inv(cfg, w, s) && Apply(cfg, s, Execution(t, Done)).Some?
    requires Target(PcOf(s, t).plan.sql) == w
    ensures
      var s' := Apply(cfg, s, Execution(t, Done)).value;
      var pc, tab := PcOf(s, t), TableAt(s, w);
      var ins := Denote(pc.plan.sql, pc.plan.params);
      && pc.Planned? && pc.locked && Target(pc.call.sql) == w && s.holder == Some(t)
      && WatchedCall(cfg, w, pc.call) && PlanCurrent(cfg, pc.call, pc.plan, tab)
      && ins.Some? && IdFor(tab, ins.value) > LastId(tab)
      && Store.Execute(tab, ins.value) == Some(TableAt(s', w))
      && s' == Put(Go(s, t, Executed(pc.call, pc.plan, 0, true)), w, TableAt(s', w))
  {
    var pc := PcOf(s, t);
    assert PcOk(cfg, w, TableAt(s, w), pc);
    assert InCritical(pc);
    PlanAbove(cfg, w, pc.call, pc.plan, TableAt(s, w));
  }

  lemma SameStandingMutex(s: Sys, s': Sys, t: nat)
    requires Mutex(s) && s'.holder == s.holder && (InCritical(PcOf(s', t)) <==> InCritical(PcOf(s, t)))
    requires forall u: nat :: u != t ==> PcOf(s', u) == PcOf(s, u)
    ensures Mutex(s')
  {
  }

  /** A thread with no plan for the watched table does not care how that table changes. */
  lemma AwayPcOk(cfg: Config, w: string, tab: Table, tab': Table, pc: Pc)
    requires PcOk(cfg, w, tab, pc) && (pc.Planned? ==> Target(pc.call.sql) != w)
    ensures PcOk(cfg, w, tab', pc)
  {
  }

  lemma DoneKeepsWatched(cfg: Config, w: string, s: Sys, t: nat)
    requires Inv(cfg, w, s) && Apply(cfg, s, Execution(t, Done)).Some?
    requires Target(PcOf(s, t).plan.sql) == w
    ensures Inv(cfg, w, Apply(cfg, s, Execution(t, Done)).value)
  {
    var s' := Apply(cfg, s, Execution(t, Done)).value;
    WatchedDone(cfg, w, s, t);
    assert forall u: nat :: u != t ==> PcOf(s', u) == PcOf(s, u);
    SameStandingMutex(s, s', t);
    ExecuteGrowsIds(TableAt(s, w), Denote(PcOf(s, t).plan.sql, PcOf(s, t).plan.params).value);
    forall u: nat
      ensures PcOk(cfg, w, TableAt(s', w), PcOf(s', u))
    {
      if u != t {
        assert PcOk(cfg, w, TableAt(s, w), PcOf(s, u));
        OthersAway(cfg, w, s, t, u);
        AwayPcOk(cfg, w, TableAt(s, w), TableAt(s', w), PcOf(s, u));
      }
    }
  }

  lemma SelectionKeepsWatched(cfg: Config, w: string, s: Sys, t: nat, chosen: seq<Row>)
    requires Inv(cfg, w, s) && Apply(cfg, s, Selection(t, chosen)).Some?
    requires Target(PcOf(s, t).plan.sql) == w
    ensures Inv(cfg, w, Apply(cfg, s, Selection(t, chosen)).value)
  {
    var s' := Apply(cfg, s, Selection(t, chosen)).value;
    assert PcOk(cfg, w, TableAt(s, w), PcOf(s, t));
    assert InCritical(PcOf(s, t)) && s.holder == Some(t);
    assert forall u: nat :: u != t ==> PcOf(s', u) == PcOf(s, u);
    SameStandingMutex(s, s', t);
    AppendAllGrows(TableAt(s, w), chosen);
    forall u: nat
      ensures PcOk(cfg, w, TableAt(s', w), PcOf(s', u))
    {
      if u != t {
        assert PcOk(cfg, w, TableAt(s, w), PcOf(s, u));
        OthersAway(cfg, w, s, t, u);
        AwayPcOk(cfg, w, TableAt(s, w), TableAt(s', w), PcOf(s, u));
      }
    }
  }

  lemma SelectionKeepsOther(cfg: Config, w: string, s: Sys, t: nat, chosen: seq<Row>)
    requires Inv(cfg, w, s) && Apply(cfg, s, Selection(t, chosen)).Some?
    requires Target(PcOf(s, t).plan.sql) != w
    ensures Inv(cfg, w, Apply(cfg, s, Selection(t, chosen)).value)
  {
    var s' := Apply(cfg, s, Selection(t, chosen)).value;
    assert forall u: nat :: u != t ==> PcOf(s', u) == PcOf(s, u);
    assert TableAt(s', w) == TableAt(s, w);
    SameStandingMutex(s, s', t);
  }

  lemma NotDoneKeeps(cfg: Config, w: string, s: Sys, t: nat, outcome: Outcome)
    requires Inv(cfg, w, s) && outcome != Done && Apply(cfg, s, Execution(t, outcome)).Some?
    ensures Inv(cfg, w, Apply(cfg, s, Execution(t, outcome)).value)
  {
  }

  lemma NotifyKeeps(cfg: Config, w: string, s: Sys, t: nat)
    requires Inv(cfg, w, s) && Apply(cfg, s, Notify(t)).Some?
    ensures Inv(cfg, w, Apply(cfg, s, Notify(t)).value)
  {
  }

  lemma ReleaseKeeps(cfg: Config, w: string, s: Sys, t: nat)
    requires Inv(cfg, w, s) && Apply(cfg, s, Release(t)).Some?
    ensures Inv(cfg, w, Apply(cfg, s, Release(t)).value)
  {
  }

  lemma DataKeeps(cfg: Config, w: string, s: Sys, step: Step)
    requires Inv(cfg, w, s) && StepOk(cfg, w, step) && Apply(cfg, s, step).Some?
    requires step.Delete? || step.Update? || step.Foreign?
    ensures Inv(cfg, w, Apply(cfg, s, step).value)
  {
    var s' := Apply(cfg, s, step).value;
    assert forall u: nat :: PcOf(s', u) == PcOf(s, u);
    assert TableAt(s', w).last == TableAt(s, w).last && TableAt(s', w).inserted == TableAt(s, w).inserted;
    assert ReadOf(TableAt(s', w)) == ReadOf(TableAt(s, w));
    forall u: nat
      ensures PcOk(cfg, w, TableAt(s', w), PcOf(s', u))
    {
      assert PcOk(cfg, w, TableAt(s, w), PcOf(s, u));
    }
  }

  lemma StepKeeps(cfg: Config, w: string, s: Sys, step: Step)
    requires Inv(cfg, w, s) && StepOk(cfg, w, step) && Apply(cfg, s, step).Some?
    ensures Inv(cfg, w, Apply(cfg, s, step).value)
  {
    match step
    case Begin(t, call) => BeginKeeps(cfg, w, s, t, call);
    case Acquire(t) => AcquireKeeps(cfg, w, s, t);
    case Read(t, ok) => ReadKeeps(cfg, w, s, t, ok);
    case Execution(t, outcome) =>
      if outcome != Done {
        NotDoneKeeps(cfg, w, s, t, outcome);
      } else if Target(PcOf(s, t).plan.sql) == w {
        DoneKeepsWatched(cfg, w, s, t);
      } else {
        DoneKeepsOther(cfg, w, s, t);
      }
    case Selection(t, chosen) =>
      if Target(PcOf(s, t).plan.sql) == w {
        SelectionKeepsWatched(cfg, w, s, t, chosen);
      } else {
        SelectionKeepsOther(cfg, w, s, t, chosen);
      }
    case Notify(t) => NotifyKeeps(cfg, w, s, t);
    case Release(t) => ReleaseKeeps(cfg, w, s, t);
    case _ => DataKeeps(cfg, w, s, step);
  }

  /** The invariant holds in every state any interleaving reaches. */
  lemma {:induction false} RunKeeps(cfg: Config, w: string, s: Sys, steps: seq<Step>)
    requires Inv(cfg, w, s) && AllOk(cfg, w, steps) && Run(cfg, s, steps).Some?
    ensures Inv(cfg, w, Run(cfg, s, steps).value)
  {
    if steps != [] {
      var n := |steps| - 1;
      RunKeeps(cfg, w, s, steps[..n]);
      StepKeeps(cfg, w, Run(cfg, s, steps[..n]).value, steps[n]);
    }
  }

  // ---------------------------------------------------------------------------
  // Concurrent allocation

  lemma PlannedHolds(cfg: Config, w: string, s: Sys, t: nat)
    requires Inv(cfg, w, s) && PcOf(s, t).Planned? && Target(PcOf(s, t).call.sql) == w
    ensures s.holder == Some(t) && WatchedCall(cfg, w, PcOf(s, t).call)
    ensures PlanCurrent(cfg, PcOf(s, t).call, PcOf(s, t).plan, TableAt(s, w)) && Target(PcOf(s, t).plan.sql) == w
  {
  }

  lemma PlannedIdIsNew(cfg: Config, w: string, s: Sys, t: nat)
    requires Inv(cfg, w, s) && PcOf(s, t).Planned? && Target(PcOf(s, t).call.sql) == w && PcOf(s, t).plan.rewritten
    ensures forall i :: 0 <= i < |TableAt(s, w).inserted| ==> TableAt(s, w).inserted[i].id < PcOf(s, t).plan.id
  {
  }

  lemma CanRun(cfg: Config, w: string, s: Sys, t: nat, tab: Table, ins: Insert)
    requires PcOf(s, t).Planned? && Target(PcOf(s, t).plan.sql) == w && tab == TableAt(s, w)
    requires Denote(PcOf(s, t).plan.sql, PcOf(s, t).plan.params) == Some(ins) && Store.Execute(tab, ins).Some?
    ensures Apply(cfg, s, Execution(t, Done)).Some?
  {
  }

  lemma PlannedCanRun(cfg: Config, w: string, s: Sys, t: nat)
    requires Inv(cfg, w, s) && PcOf(s, t).Planned? && Target(PcOf(s, t).call.sql) == w
    requires Denote(PcOf(s, t).call.sql, PcOf(s, t).call.params).Some?
    ensures Apply(cfg, s, Execution(t, Done)).Some?
  {
    var plan, tab := PcOf(s, t).plan, TableAt(s, w);
    PlannedHolds(cfg, w, s, t);
    PlanAbove(cfg, w, PcOf(s, t).call, plan, tab);
    var ins := Denote(plan.sql, plan.params).value;
    ExecuteGrowsIds(tab, ins);
    CanRun(cfg, w, s, t, tab, ins);
  }

  /** In every reachable state a thread about to insert into the watched table holds the lock, its
      id is above every id ever committed there, its step cannot collide, and the committed ids
      are strictly increasing, those of inserts from a selection included. */
  lemma AllocationIsSafe(cfg: Config, w: string, s0: Sys, steps: seq<Step>, t: nat)
    requires Quiet(s0) && GrownIds(TableAt(s0, w)) && AllOk(cfg, w, steps) && Run(cfg, s0, steps).Some?
    ensures
      var s := Run(cfg, s0, steps).value;
      var tab := TableAt(s, w);
      var pc := PcOf(s, t);
      && Increasing(tab.inserted)
      && (pc.Planned? && Target(pc.call.sql) == w ==>
            && s.holder == Some(t)
            && (pc.plan.rewritten ==> forall i :: 0 <= i < |tab.inserted| ==> tab.inserted[i].id < pc.plan.id)
            && (Denote(pc.call.sql, pc.call.params).Some? ==> Apply(cfg, s, Execution(t, Done)).Some?)
            && (!TwoParens(pc.call.sql) ==> forall chosen :: Apply(cfg, s, Selection(t, chosen)).Some?))
  {
    QuietInv(cfg, w, s0);
    RunKeeps(cfg, w, s0, steps);
    var s := Run(cfg, s0, steps).value;
    var pc := PcOf(s, t);
    if pc.Planned? && Target(pc.call.sql) == w {
      PlannedHolds(cfg, w, s, t);
      if pc.plan.rewritten {
        PlannedIdIsNew(cfg, w, s, t);
      }
      if Denote(pc.call.sql, pc.call.params).Some? {
        PlannedCanRun(cfg, w, s, t);
      }
    }
  }
}
