/**
 Why `sqllite_insert` needs its lock, one call on its own, and a statement the theorems apply to.
 */
module InsertRace {
  import opened Common
  import opened SqlText
  import opened Allocator
  import opened Store
  import opened InsertProtocol
  import opened InsertThreads
  import opened InsertReplay

  // ---------------------------------------------------------------------------
  // Why the lock is needed, and one call alone

  /** After an automatic id has been taken, an allocated id is taken too exactly when it is not a skipping one. */
  lemma AutomaticTakesAllocated(t: Table, ins: Insert)
    requires GrownIds(t) && AskedId(ins) == None
    ensures Store.Execute(t, ins).Some?
    ensures AllocatedId(ReadOf(t)) in Store.Execute(t, ins).value.rows <==> (LastId(t) + 1) % SERVER_NUM_CYC != 0
  {
    var id := AllocatedId(ReadOf(t));
    AboveAll(t, LastId(t) + 1);
    AboveAll(t, id);
    assert id in Store.Execute(t, ins).value.rows <==> id == LastId(t) + 1;
    NextIdIsLeast(LastId(t), 0);
  }

  /** The state after both have run their statement, `u` first; None if one of them cannot. */
  function AfterBoth(cfg: Config, s: Sys, u: nat, t: nat): Option<Sys> {
    var first := Apply(cfg, s, Execution(u, Done));
    if first == None then None else Apply(cfg, first.value, Execution(t, Done))
  }

  function AfterOne(cfg: Config, s: Sys, u: nat): Option<Sys> {
    Apply(cfg, s, Execution(u, Done))
  }

  /** A planned thread and what its statement means on the table it names. */
  ghost predicate AboutTo(s: Sys, t: nat, w: string, ins: Insert) {
    && PcOf(s, t).Planned? && Target(PcOf(s, t).plan.sql) == w
    && Denote(PcOf(s, t).plan.sql, PcOf(s, t).plan.params) == Some(ins)
  }

  /** Its step is impossible exactly when its id is taken. */
  lemma CollidesIff(cfg: Config, s: Sys, t: nat, w: string, tab: Table, ins: Insert)
    requires AboutTo(s, t, w, ins) && tab == TableAt(s, w)
    ensures AfterOne(cfg, s, t) == None <==> IdFor(tab, ins) in tab.rows
  {
  }

  lemma OtherStillAboutTo(cfg: Config, s: Sys, u: nat, t: nat, w: string, tab: Table, ins: Insert, mine: Insert)
    returns (s': Sys)
    requires t != u && AboutTo(s, u, w, ins) && AboutTo(s, t, w, mine) && tab == TableAt(s, w)
    requires Store.Execute(tab, ins).Some?
    ensures AfterOne(cfg, s, u) == Some(s') && AboutTo(s', t, w, mine)
    ensures TableAt(s', w) == Store.Execute(tab, ins).value
  {
    s' := Apply(cfg, s, Execution(u, Done)).value;
  }

  lemma SecondRunFailsIff(cfg: Config, s: Sys, t: nat, u: nat, w: string, tab: Table, mine: Insert, ins: Insert)
    requires t != u && AboutTo(s, u, w, ins) && AboutTo(s, t, w, mine) && tab == TableAt(s, w)
    requires AskedId(mine).Some? && Store.Execute(tab, ins).Some?
    ensures AfterOne(cfg, s, u) != None
    ensures AfterBoth(cfg, s, u, t) == None <==> AskedId(mine).value in Store.Execute(tab, ins).value.rows
  {
    var s' := OtherStillAboutTo(cfg, s, u, t, w, tab, ins, mine);
    CollidesIff(cfg, s', t, w, Store.Execute(tab, ins).value, mine);
  }

  /** Were an insert without the lock to reach the watched table between a holder's read and step,
      the holder would collide exactly when the automatic id is not a skipped one. */
  lemma UnlockedInsertCollidesIff(cfg: Config, w: string, s: Sys, tab: Table, t: nat, u: nat)
    requires tab == TableAt(s, w) && GrownIds(tab) && t != u
    requires
      var pc := PcOf(s, t);
      && pc.Planned? && pc.plan.rewritten && Target(pc.plan.sql) == w
      && WatchedCall(cfg, w, pc.call) && PlanCurrent(cfg, pc.call, pc.plan, tab)
      && Denote(pc.call.sql, pc.call.params).Some?
    requires
      var other := PcOf(s, u);
      && other.Planned? && other.plan == AsGiven(other.call, 0) && Target(other.call.sql) == w
      && Denote(other.call.sql, other.call.params).Some?
      && LeavesIdOpen(Denote(other.call.sql, other.call.params).value)
    ensures AfterOne(cfg, s, u) != None
    ensures AfterBoth(cfg, s, u, t) == None <==> (LastId(tab) + 1) % SERVER_NUM_CYC != 0
  {
    var other, pc := PcOf(s, u), PcOf(s, t);
    var ins := Denote(other.call.sql, other.call.params).value;
    assert AskedId(ins) == None by {
      WithIdRow(0, ins);
    }
    RewrittenAsks(cfg, w, pc.call, pc.plan, tab);
    var mine := Denote(pc.plan.sql, pc.plan.params).value;
    var id := AskedId(mine).value;
    var tab' := Store.Execute(tab, ins);
    assert tab'.Some? && (id in tab'.value.rows <==> (LastId(tab) + 1) % SERVER_NUM_CYC != 0) by {
      AutomaticTakesAllocated(tab, ins);
    }
    assert Target(other.plan.sql) == w && Denote(other.plan.sql, other.plan.params) == Some(ins);
    SecondRunFailsIff(cfg, s, t, u, w, tab, mine, ins);
  }

  /** Were an update to change ids, the holder would collide exactly when some row has been moved onto
      the id it holds. */
  lemma MovedRowCollidesIff(cfg: Config, w: string, s: Sys, tab: Table, t: nat, rows: map<int, Row>)
    requires tab == TableAt(s, w)
    requires
      var pc := PcOf(s, t);
      && pc.Planned? && pc.plan.rewritten && Target(pc.plan.sql) == w
      && WatchedCall(cfg, w, pc.call) && PlanCurrent(cfg, pc.call, pc.plan, tab)
      && Denote(pc.call.sql, pc.call.params).Some?
    ensures
      AfterOne(cfg, Put(s, w, tab.(rows := rows)), t) == None <==> AllocatedId(ReadOf(tab)) in rows
  {
    var pc := PcOf(s, t);
    RewrittenAsks(cfg, w, pc.call, pc.plan, tab);
    var ins := Denote(pc.plan.sql, pc.plan.params).value;
    var s' := Put(s, w, tab.(rows := rows));
    assert PcOf(s', t) == pc && AboutTo(s', t, w, ins);
    CollidesIff(cfg, s', t, w, tab.(rows := rows), ins);
  }

  /** A locked insert of listed values for which the slot scan finds `name`. */
  ghost predicate Shadowed(cfg: Config, name: string, call: Call) {
    && Locks(cfg, call) && FirstMatch(cfg.slots, call.sql) == Some(name) && Shape(call.sql)
    && Denote(call.sql, call.params).Some? && LeavesIdOpen(Denote(call.sql, call.params).value)
  }

  /** An insert whose table is shadowed by another registered name asks for the id allocated from the
      other table's sequence, and collides exactly when its own table has that id. */
  lemma ShadowedInsertCollidesIff(cfg: Config, name: string, s: Sys, t: nat, call: Call) returns (r: Sys)
    requires Shadowed(cfg, name, call) && PcOf(s, t) == Idle && s.holder == None
    ensures Run(cfg, s, UpToRead(t, call, true)) == Some(r)
    ensures PcOf(r, t).Planned? && PcOf(r, t).plan.id == AllocatedId(ReadOf(TableAt(s, name)))
    ensures AfterOne(cfg, r, t) == None <==>
            AllocatedId(ReadOf(TableAt(s, name))) in TableAt(s, Target(call.sql)).rows
  {
    var id, w := AllocatedId(ReadOf(TableAt(s, name))), Target(call.sql);
    r := LoneUpToRead(cfg, s, t, call, true);
    PlanTarget(cfg, call, ReadOf(TableAt(s, name)));
    RewritePreserves(call.sql, id, call.params);
    var ins := WithId(id, Denote(call.sql, call.params)).value;
    WithIdRow(id, Denote(call.sql, call.params).value);
    assert AboutTo(r, t, w, ins);
    CollidesIff(cfg, r, t, w, TableAt(s, w), ins);
  }

  /** A rewritten current plan asks for the id allocated from the sequence. */
  lemma RewrittenAsks(cfg: Config, w: string, call: Call, plan: Plan, t: Table)
    requires WatchedCall(cfg, w, call) && PlanCurrent(cfg, call, plan, t) && plan.rewritten
    requires Denote(call.sql, call.params).Some?
    ensures Denote(plan.sql, plan.params).Some?
    ensures AskedId(Denote(plan.sql, plan.params).value) == Some(AllocatedId(ReadOf(t)))
  {
    RewritePreserves(call.sql, plan.id, call.params);
    WithIdRow(plan.id, Denote(call.sql, call.params).value);
  }

  function UpToRead(t: nat, call: Call, ok: bool): seq<Step> {
    [Begin(t, call)] + [Acquire(t)] + [Read(t, ok)]
  }

  /** A locked call up to its read, alone. */
  lemma LoneUpToRead(cfg: Config, s: Sys, t: nat, call: Call, ok: bool) returns (r: Sys)
    requires PcOf(s, t) == Idle && s.holder == None && Locks(cfg, call)
    ensures Run(cfg, s, UpToRead(t, call, ok)) == Some(r)
    ensures r.holder == Some(t) && r.store == s.store && r.log == s.log
    ensures PcOf(r, t) == Planned(call, LockedPlan(cfg, call, Answer(cfg, s, call, ok)), true)
    ensures forall u: nat :: u != t ==> PcOf(r, u) == PcOf(s, u)
  {
    var one := [Begin(t, call)];
    Snoc(cfg, s, [], Begin(t, call));
    assert [] + [Begin(t, call)] == one;
    Snoc(cfg, s, one, Acquire(t));
    Snoc(cfg, s, one + [Acquire(t)], Read(t, ok));
    var s2 := Run(cfg, s, one + [Acquire(t)]).value;
    assert PcOf(s2, t) == Holding(call) && s2.store == s.store;
    assert Answer(cfg, s2, call, ok) == Answer(cfg, s, call, ok);
    r := Run(cfg, s, UpToRead(t, call, ok)).value;
  }

  /** A locked call up to its read, and a second insert into the same table that asks for neither
      observation nor id. */
  function RacingSteps(t: nat, u: nat, call: Call, other: Call): seq<Step> {
    UpToRead(t, call, true) + [Begin(u, other)]
  }

  /** They are possible from every quiet state. */
  lemma RacersReady(cfg: Config, w: string, s: Sys, tab: Table, t: nat, u: nat, call: Call, other: Call)
    returns (r: Sys)
    requires Quiet(s) && t != u && tab == TableAt(s, w)
    requires Locks(cfg, call) && !Locks(cfg, other) && FirstMatch(cfg.slots, call.sql) == Some(w)
    ensures Run(cfg, s, RacingSteps(t, u, call, other)) == Some(r) && tab == TableAt(r, w)
    ensures PcOf(r, t) == Planned(call, LockedPlan(cfg, call, ReadOf(tab)), true)
    ensures PcOf(r, u) == Planned(other, AsGiven(other, 0), false)
  {
    var s3 := LoneUpToRead(cfg, s, t, call, true);
    Snoc(cfg, s, UpToRead(t, call, true), Begin(u, other));
    assert PcOf(s3, u) == PcOf(s, u) == Idle;
    r := Go(s3, u, Planned(other, AsGiven(other, 0), false));
  }

  /** A locked insert into the watched table and one that skips the lock, both leaving the id open. */
  ghost predicate Racing(cfg: Config, w: string, call: Call, other: Call) {
    && WatchedCall(cfg, w, call) && Target(call.sql) == w && TwoParens(call.sql)
    && Denote(call.sql, call.params).Some?
    && !Locks(cfg, other) && Target(other.sql) == w
    && Denote(other.sql, other.params).Some? && LeavesIdOpen(Denote(other.sql, other.params).value)
  }

  lemma RacersCollideIff(cfg: Config, w: string, r: Sys, tab: Table, t: nat, u: nat, call: Call, other: Call)
    requires tab == TableAt(r, w) && GrownIds(tab) && t != u && Racing(cfg, w, call, other)
    requires PcOf(r, t) == Planned(call, LockedPlan(cfg, call, ReadOf(tab)), true)
    requires PcOf(r, u) == Planned(other, AsGiven(other, 0), false)
    ensures AfterOne(cfg, r, u) != None
    ensures AfterBoth(cfg, r, u, t) == None <==> (LastId(tab) + 1) % SERVER_NUM_CYC != 0
  {
    PlanTarget(cfg, call, ReadOf(tab));
    UnlockedInsertCollidesIff(cfg, w, r, tab, t, u);
  }

  /** From any quiet state those steps are possible, and the insert that skips the lock then makes the
      lock holder collide exactly when the automatic id is not a skipped one. */
  lemma RacingRunCollidesIff(cfg: Config, w: string, s: Sys, tab: Table, t: nat, u: nat, call: Call, other: Call)
    returns (r: Sys)
    requires Quiet(s) && t != u && Racing(cfg, w, call, other)
    requires tab == TableAt(s, w) && GrownIds(tab)
    ensures Run(cfg, s, RacingSteps(t, u, call, other)) == Some(r)
    ensures AfterOne(cfg, r, u) != None
    ensures AfterBoth(cfg, r, u, t) == None <==> (LastId(tab) + 1) % SERVER_NUM_CYC != 0
  {
    r := RacersReady(cfg, w, s, tab, t, u, call, other);
    RacersCollideIff(cfg, w, r, tab, t, u, call, other);
  }

  function UpToStep(t: nat, call: Call, ok: bool, outcome: Outcome): seq<Step> {
    UpToRead(t, call, ok) + [Execution(t, outcome)]
  }

  lemma SoloUpToStep(cfg: Config, s: Sys, t: nat, call: Call, ok: bool, outcome: Outcome)
    requires PcOf(s, t) == Idle && s.holder == None && Locks(cfg, call)
    requires outcome == Done ==> Ran(s, LockedPlan(cfg, call, Answer(cfg, s, call, ok))).Some?
    ensures
      var plan := LockedPlan(cfg, call, Answer(cfg, s, call, ok));
      var r := Run(cfg, s, UpToStep(t, call, ok, outcome));
      && r.Some? && r.value.holder == Some(t) && r.value.log == s.log
      && r.value.store == (if outcome == Done then s.store[Target(plan.sql) := Ran(s, plan).value] else s.store)
      && PcOf(r.value, t) ==
         if outcome == Failed then Leaving(-1, None, true)
         else Executed(call, Settled(call, plan, outcome), Flag(outcome), true)
  {
    var plan := LockedPlan(cfg, call, Answer(cfg, s, call, ok));
    var s3 := LoneUpToRead(cfg, s, t, call, ok);
    Snoc(cfg, s, UpToRead(t, call, ok), Execution(t, outcome));
    assert Ran(s3, plan) == Ran(s, plan);
  }

  /** The steps of one locked call on its own end as `Result` says and free the lock. */
  lemma SoloCall(cfg: Config, s: Sys, t: nat, call: Call, ok: bool, outcome: Outcome)
    requires PcOf(s, t) == Idle && s.holder == None && Locks(cfg, call)
    requires outcome == Done ==> Ran(s, LockedPlan(cfg, call, Answer(cfg, s, call, ok))).Some?
    ensures
      var front := UpToStep(t, call, ok, outcome);
      var steps := if outcome == Failed then front else front + [Notify(t)];
      var r := Result(cfg, call, Answer(cfg, s, call, ok), outcome);
      && Run(cfg, s, steps).Some?
      && PcOf(Run(cfg, s, steps).value, t) == Leaving(r.rc, r.id, true)
      && Run(cfg, s, steps).value.log == s.log + r.notes
      && Run(cfg, s, steps + [Release(t)]).Some?
      && Run(cfg, s, steps + [Release(t)]).value.holder == None
      && PcOf(Run(cfg, s, steps + [Release(t)]).value, t) == Idle
      && Run(cfg, s, steps + [Release(t)]).value.store == Run(cfg, s, front).value.store
  {
    var front := UpToStep(t, call, ok, outcome);
    SoloUpToStep(cfg, s, t, call, ok, outcome);
    Snoc(cfg, s, front, Notify(t));
    Snoc(cfg, s, if outcome == Failed then front else front + [Notify(t)], Release(t));
  }

  function UnlockedSteps(t: nat, call: Call, outcome: Outcome): seq<Step> {
    [Begin(t, call)] + [Execution(t, outcome)]
  }

  lemma UnlockedUpToStep(cfg: Config, s: Sys, t: nat, call: Call, outcome: Outcome, plan: Plan)
    requires PcOf(s, t) == Idle && !Locks(cfg, call) && plan == Plan(call.sql, call.params, 0, false)
    requires outcome == Done ==> Ran(s, plan).Some?
    ensures
      var r := Run(cfg, s, UnlockedSteps(t, call, outcome));
      && r.Some? && r.value.holder == s.holder && r.value.log == s.log
      && r.value.store == (if outcome == Done then s.store[Target(call.sql) := Ran(s, plan).value] else s.store)
      && PcOf(r.value, t) ==
         if outcome == Failed then Leaving(-1, None, false) else Executed(call, plan, Flag(outcome), false)
  {
    Snoc(cfg, s, [], Begin(t, call));
    assert [] + [Begin(t, call)] == [Begin(t, call)];
    Snoc(cfg, s, [Begin(t, call)], Execution(t, outcome));
    var s1 := Run(cfg, s, [Begin(t, call)]).value;
    assert PcOf(s1, t) == Planned(call, plan, false) && s1.store == s.store;
    assert Ran(s1, plan) == Ran(s, plan);
  }

  lemma ReleaseUnlocked(cfg: Config, s: Sys, t: nat, rc: int, id: Option<int>, s': Sys)
    requires PcOf(s, t) == Leaving(rc, id, false) && Apply(cfg, s, Release(t)) == Some(s')
    ensures PcOf(s', t) == Idle && s'.holder == s.holder && s'.store == s.store && s'.log == s.log
  {
  }

  /** A call that takes no lock runs the caller's statement with the caller's parameters, ends as `Result` says
      and leaves the lock alone. */
  lemma UnlockedCall(cfg: Config, s: Sys, t: nat, call: Call, read: SeqRead, outcome: Outcome, w: string)
    returns (steps: seq<Step>, end: Sys, after: Sys)
    requires PcOf(s, t) == Idle && !Locks(cfg, call) && w == Target(call.sql)
    requires outcome == Done ==>
               Denote(call.sql, call.params).Some? &&
               Store.Execute(TableAt(s, w), Denote(call.sql, call.params).value).Some?
    ensures steps == UnlockedSteps(t, call, outcome) + if outcome == Failed then [] else [Notify(t)]
    ensures
      var r := Result(cfg, call, read, outcome);
      Run(cfg, s, steps) == Some(end) && PcOf(end, t) == Leaving(r.rc, r.id, false) && end.log == s.log + r.notes
    ensures Run(cfg, s, steps + [Release(t)]) == Some(after)
    ensures after.holder == s.holder && PcOf(after, t) == Idle && after.log == end.log
    ensures after.store ==
            if outcome != Done then s.store
            else s.store[w := Store.Execute(TableAt(s, w), Denote(call.sql, call.params).value).value]
  {
    var front, plan := UnlockedSteps(t, call, outcome), Plan(call.sql, call.params, 0, false);
    UnlockedUpToStep(cfg, s, t, call, outcome, plan);
    var m := Run(cfg, s, front).value;
    if outcome == Failed {
      steps, end := front, m;
      assert front + [] == front && s.log + [] == s.log;
    } else {
      steps, end := front + [Notify(t)], Apply(cfg, m, Notify(t)).value;
      Snoc(cfg, s, front, Notify(t));
    }
    Snoc(cfg, s, steps, Release(t));
    after := Apply(cfg, end, Release(t)).value;
    ReleaseUnlocked(cfg, end, t, Result(cfg, call, read, outcome).rc, Result(cfg, call, read, outcome).id, after);
  }

  // ---------------------------------------------------------------------------
  // The reported id

  ghost predicate LeavesAlone(steps: seq<Step>, t: nat) {
    forall i :: 0 <= i < |steps| && MovesThread(steps[i]) ==> steps[i].t != t
  }

  lemma {:induction false} StaysPut(cfg: Config, s: Sys, steps: seq<Step>, t: nat)
    requires LeavesAlone(steps, t) && Run(cfg, s, steps).Some?
    ensures PcOf(Run(cfg, s, steps).value, t) == PcOf(s, t)
  {
    if steps != [] {
      var n := |steps| - 1;
      StaysPut(cfg, s, steps[..n], t);
      OthersUnmoved(cfg, Run(cfg, s, steps[..n]).value, steps[n], t);
    }
  }

  lemma RunEnters(cfg: Config, w: string, s: Sys, t: nat, s1: Sys, tab: Table, tab1: Table)
    requires Inv(cfg, w, s) && Apply(cfg, s, Execution(t, Done)) == Some(s1)
    requires PcOf(s, t).plan.rewritten && Target(PcOf(s, t).plan.sql) == w
    requires tab == TableAt(s, w) && tab1 == TableAt(s1, w)
    ensures |tab1.inserted| == |tab.inserted| + 1 && tab1.inserted[|tab.inserted|].id == PcOf(s, t).plan.id
    ensures PcOf(s1, t) == Executed(PcOf(s, t).call, PcOf(s, t).plan, 0, true)
  {
    WatchedDone(cfg, w, s, t);
    PlanAbove(cfg, w, PcOf(s, t).call, PcOf(s, t).plan, tab);
  }

  /** Whatever other threads do in between, a rewritten insert that was done and asks for its id is told the
      id under which its row was entered. */
  lemma ReportedIdIsEntered(
    cfg: Config, w: string, s: Sys, t: nat, s1: Sys, steps: seq<Step>, s2: Sys, s3: Sys, tab: Table, tab1: Table)
    requires Inv(cfg, w, s) && Apply(cfg, s, Execution(t, Done)) == Some(s1)
    requires PcOf(s, t).plan.rewritten && Target(PcOf(s, t).plan.sql) == w && PcOf(s, t).call.wantId
    requires tab == TableAt(s, w) && tab1 == TableAt(s1, w)
    requires LeavesAlone(steps, t) && Run(cfg, s1, steps) == Some(s2) && Apply(cfg, s2, Notify(t)) == Some(s3)
    ensures |tab1.inserted| == |tab.inserted| + 1
    ensures PcOf(s3, t) == Leaving(0, Some(tab1.inserted[|tab.inserted|].id), true)
  {
    RunEnters(cfg, w, s, t, s1, tab, tab1);
    StaysPut(cfg, s1, steps, t);
    NotifyReports(cfg, s2, t, s3);
  }

  lemma NotifyReports(cfg: Config, s: Sys, t: nat, s': Sys)
    requires Apply(cfg, s, Notify(t)) == Some(s')
    ensures PcOf(s, t).Executed?
    ensures PcOf(s, t).call.wantId ==> PcOf(s', t) == Leaving(0, Some(PcOf(s, t).plan.id), PcOf(s, t).locked)
  {
  }

  lemma SameRow(cfg: Config, w: string, call: Call, plan: Plan, t: Table, ins: Insert, given: Insert)
    requires WatchedCall(cfg, w, call) && PlanCurrent(cfg, call, plan, t)
    requires Denote(plan.sql, plan.params) == Some(ins) && Denote(call.sql, call.params) == Some(given)
    ensures RowOf(ins) == Zip(given.columns, given.values)
  {
    if plan.rewritten {
      RewritePreserves(call.sql, plan.id, call.params);
    }
    WithIdRow(plan.id, given);
  }

  /** The row entered by a done step pairs the caller's columns with the caller's values, one to one. */
  lemma EnteredRowPairs(cfg: Config, w: string, s: Sys, t: nat, s1: Sys, given: Insert)
    requires Inv(cfg, w, s) && Apply(cfg, s, Execution(t, Done)) == Some(s1) && Target(PcOf(s, t).plan.sql) == w
    requires Denote(PcOf(s, t).call.sql, PcOf(s, t).call.params) == Some(given)
    ensures |TableAt(s1, w).inserted| == |TableAt(s, w).inserted| + 1
    ensures
      var row := TableAt(s1, w).inserted[|TableAt(s, w).inserted|].row;
      && |row| == |given.columns| == |given.values|
      && forall i :: 0 <= i < |row| ==> row[i] == (given.columns[i], given.values[i])
  {
    WatchedDone(cfg, w, s, t);
    var pc, tab := PcOf(s, t), TableAt(s, w);
    var ins := Denote(pc.plan.sql, pc.plan.params).value;
    SameRow(cfg, w, pc.call, pc.plan, tab, ins, given);
    ZipPairs(given.columns, given.values);
    ExecuteAdds(tab, ins);
  }

  lemma Snoc(cfg: Config, s: Sys, steps: seq<Step>, last: Step)
    ensures Run(cfg, s, steps + [last]) ==
            if Run(cfg, s, steps) == None then None else Apply(cfg, Run(cfg, s, steps).value, last)
  {
  }

  // ---------------------------------------------------------------------------
  // A statement the theorems apply to

  /** A name without quotes, placeholders, spaces or parentheses. */
  predicate PlainName(name: string) {
    && name != []
    && forall i :: 0 <= i < |name| ==> name[i] != '?' && name[i] != '\'' && name[i] != ' ' && name[i] != '('
  }

  /** insert into name(a) values (?) */
  predicate IsExample(c: Cut, name: string) {
    && PlainName(name) && c.head == "insert into " + name
    && c.columns == "a" && c.mid == " values " && c.vals == "?)"
  }

  lemma {:induction false} PlainIsCalm(s: string)
    requires forall i :: 0 <= i < |s| ==> s[i] != '?' && s[i] != '\''
    ensures Calm(s, false)
  {
    if s != [] {
      PlainIsCalm(s[1..]);
    }
  }

  lemma ExampleOk(c: Cut, name: string)
    requires IsExample(c, name)
    ensures c.Ok()
  {
    PlainIsCalm(c.head);
    PlainIsCalm(c.columns);
    PlainIsCalm(c.mid);
  }

  lemma {:induction false} LastWordIs(front: string, name: string)
    requires PlainName(name) && front != [] && front[|front| - 1] == ' '
    ensures LastWord(front + name) == name
    decreases name
  {
    var k := |name| - 1;
    assert (front + name)[..|front + name| - 1] == front + name[..k];
    if k == 0 {
      assert front + name[..k] == front && LastWord(front) == [];
    } else {
      LastWordIs(front, name[..k]);
    }
    assert name[..k] + [name[k]] == name;
  }

  lemma {:induction false} PadIsStripped(s: string, pad: string)
    requires forall i :: 0 <= i < |pad| ==> pad[i] == ' '
    ensures StripSpaces(s + pad) == StripSpaces(s)
  {
    if pad == [] {
      assert s + pad == s;
    } else {
      var k := |pad| - 1;
      assert (s + pad)[..|s + pad| - 1] == s + pad[..k] && (s + pad)[|s + pad| - 1] == pad[k];
      PadIsStripped(s, pad[..k]);
    }
  }

  /** A statement names the word that stands before its first parenthesis, with any number of spaces between. */
  lemma TargetIs(sql: string, front: string, name: string, pad: string)
    requires PlainName(name) && front != [] && front[|front| - 1] == ' '
    requires forall i :: 0 <= i < |pad| ==> pad[i] == ' '
    requires sql[..FirstParen(sql)] == front + name + pad
    ensures Target(sql) == name
  {
    PadIsStripped(front + name, pad);
    assert (front + name)[|front + name| - 1] == name[|name| - 1];
    LastWordIs(front, name);
  }

  lemma ExampleTarget(c: Cut, name: string)
    requires IsExample(c, name)
    ensures Target(c.Sql()) == name
  {
    ExampleOk(c, name);
    CutParens(c);
    assert c.Sql()[..|c.head|] == c.head == "insert into " + name + "";
    TargetIs(c.Sql(), "insert into ", name, "");
  }

  lemma ExampleValues(vals: string, text: string, params: seq<DbVal>)
    requires vals == "?)" && params == [DbString(text)]
    ensures Fields(Subst(vals, 0, false, params), 0, false) == Some(Parsed([[Arg(Text(text))]], []))
  {
    var ts := Subst(vals, 0, false, params);
    assert vals[1..] == ")" && vals[1..][1..] == "";
    assert Subst(vals[1..], 1, false, params) == [Ch(')')];
    assert ts == [ArgAt(params, 0)] + [Ch(')')] == [Arg(Text(text)), Ch(')')];
    assert ts[1..] == [Ch(')')] && ts[1..][1..] == [];
    var none: seq<seq<Piece>> := [[]];
    assert Fields(ts[1..], 0, false) == Some(Parsed(none, []));
    assert [Arg(Text(text))] + none[0] == [Arg(Text(text))];
    assert [[Arg(Text(text))] + none[0]] + none[1..] == [[Arg(Text(text))]];
  }

  lemma ExampleColumns(columns: string)
    requires columns == "a"
    ensures FlatFields(columns, false) == [[Ch('a')]]
  {
    var none: seq<seq<Piece>> := [[]];
    assert columns[1..] == "";
    assert [Ch('a')] + none[0] == [Ch('a')];
    assert [[Ch('a')] + none[0]] + none[1..] == [[Ch('a')]];
  }

  lemma ExampleDenotes(c: Cut, name: string, text: string, params: seq<DbVal>)
    requires IsExample(c, name) && params == [DbString(text)]
    ensures Denote(c.Sql(), params) == Some(Insert([[Ch('a')]], [[Arg(Text(text))]]))
  {
    ExampleOk(c, name);
    DenoteCut(c, params);
    ExampleValues(c.vals, text, params);
    ExampleColumns(c.columns);
  }

  /** A name registered first is taken for a table whose name ends with it. */
  lemma ExampleMatches(c: Cut, x: string, name: string, slots: seq<Option<string>>)
    requires IsExample(c, x + name) && slots != [] && slots[0] == Some(name)
    ensures FirstMatch(slots, c.Sql()) == Some(name)
  {
    ExampleOk(c, x + name);
    CutParens(c);
    var p := |c.head|;
    assert c.Sql()[..p] == c.head;
    assert c.Sql()[p - |x + name|..p] == c.head[p - |x + name|..] == x + name;
    SuffixShadows(slots, c.Sql(), x, name);
  }

  lemma ExampleMeans(c: Cut, name: string, text: string, params: seq<DbVal>)
    requires IsExample(c, name) && params == [DbString(text)]
    ensures Target(c.Sql()) == name && Shape(c.Sql())
    ensures Denote(c.Sql(), params) == Some(Insert([[Ch('a')]], [[Arg(Text(text))]]))
    ensures LeavesIdOpen(Denote(c.Sql(), params).value)
  {
    ExampleOk(c, name);
    ExampleDenotes(c, name, text, params);
    ExampleTarget(c, name);
    CutHasShape(c);
    assert TrimRight([Ch('a')]) == [Ch('a')] && TrimLeft([Ch('a')]) == [Ch('a')];
  }

  /** The assumptions of the theorems are met by an ordinary call, whose meaning is the expected one. */
  lemma ExampleIsWatched(c: Cut, name: string, text: string, params: seq<DbVal>)
    requires IsExample(c, name) && params == [DbString(text)]
    ensures
      var call := Call(c.Sql(), params, true, false);
      && Target(call.sql) == name
      && Shape(call.sql)
      && WatchedCall(Config([Some(name)], true), name, call)
      && Denote(call.sql, call.params) == Some(Insert([[Ch('a')]], [[Arg(Text(text))]]))
  {
    assert "" + name == name;
    ExampleMatches(c, "", name, [Some(name)]);
    ExampleMeans(c, name, text, params);
  }

  lemma ExampleRaces(
    c: Cut, text: string, params: seq<DbVal>, cfg: Config, w: string, call: Call, other: Call)
    requires IsExample(c, w) && params == [DbString(text)] && cfg == Config([Some(w)], true)
    requires call == Call(c.Sql(), params, true, false) && other == Call(c.Sql(), params, false, false)
    ensures Racing(cfg, w, call, other)
  {
    ExampleIsWatched(c, w, text, params);
  }

  lemma EmptyDatabase(w: string)
    ensures
      var s := Sys(map[], None, map[], []);
      && Quiet(s) && TableAt(s, w) == EMPTY_TABLE
      && GrownIds(EMPTY_TABLE) && (LastId(EMPTY_TABLE) + 1) % SERVER_NUM_CYC != 0
  {
  }

  /** The lock is needed: where the next automatic id is not a skipped one, as in the empty database, the
      example collides when it races its own unobserved copy. */
  lemma ExampleCollides(
    c: Cut, text: string, params: seq<DbVal>, cfg: Config, w: string, s: Sys, tab: Table, t: nat, u: nat,
    call: Call, other: Call)
    returns (r: Sys)
    requires IsExample(c, w) && params == [DbString(text)] && cfg == Config([Some(w)], true)
    requires call == Call(c.Sql(), params, true, false) && other == Call(c.Sql(), params, false, false)
    requires Quiet(s) && t != u && tab == TableAt(s, w) && GrownIds(tab)
    requires (LastId(tab) + 1) % SERVER_NUM_CYC != 0
    ensures Run(cfg, s, RacingSteps(t, u, call, other)) == Some(r)
    ensures AfterOne(cfg, r, u) != None && AfterBoth(cfg, r, u, t) == None
  {
    ExampleRaces(c, text, params, cfg, w, call, other);
    r := RacingRunCollidesIff(cfg, w, s, tab, t, u, call, other);
  }

  // ---------------------------------------------------------------------------
  // A shadowed table

  /** One whole call: its steps from the lock to the release. */
  function WholeCall(t: nat, call: Call): seq<Step> {
    UpToStep(t, call, true, Done) + [Notify(t)] + [Release(t)]
  }

  lemma ShadowedFirst(cfg: Config, name: string, s: Sys, t: nat, call: Call, w: string, id: int) returns (r: Sys)
    requires Shadowed(cfg, name, call) && PcOf(s, t) == Idle && s.holder == None
    requires w == Target(call.sql) && id == AllocatedId(ReadOf(TableAt(s, name))) && id !in TableAt(s, w).rows
    ensures Run(cfg, s, WholeCall(t, call)) == Some(r) && PcOf(r, t) == Idle && r.holder == None
    ensures id in TableAt(r, w).rows && (name != w ==> TableAt(r, name) == TableAt(s, name))
  {
    var plan := LockedPlan(cfg, call, ReadOf(TableAt(s, name)));
    PlanTarget(cfg, call, ReadOf(TableAt(s, name)));
    RewritePreserves(call.sql, id, call.params);
    WithIdRow(id, Denote(call.sql, call.params).value);
    assert Answer(cfg, s, call, true) == ReadOf(TableAt(s, name));
    assert Ran(s, plan).Some? && id in Ran(s, plan).value.rows;
    SoloUpToStep(cfg, s, t, call, true, Done);
    SoloCall(cfg, s, t, call, true, Done);
    r := Run(cfg, s, WholeCall(t, call)).value;
  }

  /** Two shadowed inserts in a row: the first may succeed, but it does not move the sequence the id is
      taken from, so the second is given the same id and collides. */
  lemma ShadowedTwiceCollides(cfg: Config, name: string, s: Sys, t: nat, call: Call) returns (r: Sys, r': Sys)
    requires Shadowed(cfg, name, call) && Target(call.sql) != name && PcOf(s, t) == Idle && s.holder == None
    requires AllocatedId(ReadOf(TableAt(s, name))) !in TableAt(s, Target(call.sql)).rows
    ensures Run(cfg, s, WholeCall(t, call)) == Some(r)
    ensures Run(cfg, r, UpToRead(t, call, true)) == Some(r') && PcOf(r', t).Planned? && AfterOne(cfg, r', t) == None
  {
    r := ShadowedFirst(cfg, name, s, t, call, Target(call.sql), AllocatedId(ReadOf(TableAt(s, name))));
    r' := ShadowedInsertCollidesIff(cfg, name, r, t, call);
  }

  /** With tables `t` and `xt` watched in that order, the second insert into `xt` of an empty database
      collides. */
  lemma ExampleShadowedCollides(
    c: Cut, text: string, params: seq<DbVal>, cfg: Config, s: Sys, t: nat, call: Call) returns (r: Sys, r': Sys)
    requires IsExample(c, "xt") && params == [DbString(text)] && cfg == Config([Some("t"), Some("xt")], true)
    requires call == Call(c.Sql(), params, true, false) && s == Sys(map[], None, map[], [])
    ensures Run(cfg, s, WholeCall(t, call)) == Some(r)
    ensures Run(cfg, r, UpToRead(t, call, true)) == Some(r') && PcOf(r', t).Planned? && AfterOne(cfg, r', t) == None
  {
    assert "x" + "t" == "xt";
    ExampleMatches(c, "x", "t", cfg.slots);
    ExampleMeans(c, "xt", text, params);
    r, r' := ShadowedTwiceCollides(cfg, "t", s, t, call);
  }
}
