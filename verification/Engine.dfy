/**
 The calls of P2P_Server_src/db_sqlite.cpp as methods over its globals: observer slots, callbacks,
 the database handle and the mutex. Prepared statements and the extended parameter vector are
 handles that can be given back only while they are live.

 What SQLite answers is an argument of each call (`Reply`).
 */
module Engine {
  import opened Common
  import opened SqlText
  import opened Allocator
  import opened InsertProtocol

  const MAX_DB_OBSERVER_NUM := 50

  datatype QueryStep = QueryRow(last: int) | QueryDone | QueryOther

  datatype StepCode = StepDone | StepBusy | StepOther

  datatype Reply = Reply(queryPrepared: bool, queryStep: QueryStep, prepared: bool, step: StepCode)

  /** The three callbacks. */
  datatype Kind = Inserts | Deletions | Updates

  /** What a call does that others can see, in order. */
  datatype Event =
    | Locked
    | Asked(sql: string, values: seq<SqlValue>)
    | Ran(sql: string, values: seq<SqlValue>)
    | Told(kind: Kind, note: Note)
    | Unlocked

  /** The sequence query for a table. */
  function SequenceQuery(name: string): string { "select seq from sqlite_sequence where name='" + name + "'" }

  function ReadFrom(open: bool, reply: Reply): SeqRead {
    if !open || !reply.queryPrepared then ReadError
    else
      match reply.queryStep
      case QueryRow(last) => SeqRow(last)
      case QueryDone => NoRow
      case QueryOther => ReadError
  }

  function OutcomeFrom(open: bool, reply: Reply): Outcome {
    if !open then Closed
    else if !reply.prepared then Failed
    else
      match reply.step
      case StepDone => Done
      case StepBusy => Busy
      case StepOther => Failed
  }

  function BoundAll(params: seq<DbVal>): (r: seq<SqlValue>)
    ensures |r| == |params|
    ensures forall i :: 0 <= i < |r| ==> r[i] == Bound(params[i])
  {
    seq(|params|, i requires 0 <= i < |params| => Bound(params[i]))
  }

  // ---------------------------------------------------------------------------
  // What an insert does, as the protocol has it and from the answers alone

  function QueryEvents(slots: seq<Option<string>>, open: bool, call: Call, reply: Reply): seq<Event> {
    var name := FirstMatch(slots, call.sql);
    if name.Some? && open && reply.queryPrepared then [Asked(SequenceQuery(name.value), [])] else []
  }

  function LockEvents(cfg: Config, open: bool, call: Call, reply: Reply): seq<Event> {
    if Locks(cfg, call) then [Locked] + QueryEvents(cfg.slots, open, call, reply) else []
  }

  function RunEvents(open: bool, reply: Reply, sql: string, params: seq<DbVal>): seq<Event> {
    if open && reply.prepared then [Ran(sql, BoundAll(params))] else []
  }

  function Tellings(notes: seq<Note>): seq<Event> {
    seq(|notes|, i requires 0 <= i < |notes| => Told(Inserts, notes[i]))
  }

  function FinalEvents(cfg: Config, call: Call, plan: Plan, outcome: Outcome, hasLock: bool): seq<Event> {
    Tellings(if outcome == Failed then [] else NotesFor(cfg, call, Settled(call, plan, outcome), Flag(outcome)))
    + if hasLock then [Unlocked] else []
  }

  function InsertEvents(cfg: Config, open: bool, call: Call, reply: Reply): seq<Event> {
    var plan := MakePlan(cfg, call, ReadFrom(open, reply));
    LockEvents(cfg, open, call, reply)
    + RunEvents(open, reply, plan.sql, plan.params)
    + FinalEvents(cfg, call, plan, OutcomeFrom(open, reply), Locks(cfg, call))
  }

  /** The whole of an insert from the caller's arguments and SQLite's answers: which statement runs with which
      values, what is told, between which lock and unlock, and what is reported. */
  ghost predicate AsCoded(
    slots: seq<Option<string>>, callback: bool, open: bool, call: Call, reply: Reply,
    rc: int, newid: Option<int>, events: seq<Event>)
  {
    var takesLock := (call.observer && callback) || call.wantId;
    var name := FirstMatch(slots, call.sql);
    var allocates := takesLock && name.Some? && open && reply.queryPrepared && !reply.queryStep.QueryOther?;
    var id := if reply.queryStep.QueryRow? then NextId(reply.queryStep.last) else 1;
    var rewrites := allocates && TwoParens(call.sql);
    var sql := if rewrites then Rewritten(call.sql) else call.sql;
    var params := if rewrites then [DbInt(id)] + call.params else call.params;
    var done := open && reply.prepared && reply.step == StepDone;
    && rc == (if open && (!reply.prepared || reply.step == StepOther) then -1 else 0)
    && newid == (if rc == -1 || !call.wantId then None
                 else if allocates && (done || !rewrites) then Some(id) else Some(0))
    && events ==
       (if !takesLock then []
        else [Locked] + if name.Some? && open && reply.queryPrepared
                        then [Asked(SequenceQuery(name.value), [])] else [])
       + (if open && reply.prepared then [Ran(sql, BoundAll(params))] else [])
       + ((if rc == 0 && call.observer && callback
           then [Told(Inserts, if done then Note(sql, params, 0) else Note(call.sql, call.params, 2))] else [])
          + if takesLock then [Unlocked] else [])
  }

  /** The plan of the protocol from the answers alone. */
  lemma PlanIs(cfg: Config, open: bool, call: Call, reply: Reply, plan: Plan)
    requires plan == MakePlan(cfg, call, ReadFrom(open, reply))
    ensures
      var takesLock := (call.observer && cfg.callback) || call.wantId;
      var name := FirstMatch(cfg.slots, call.sql);
      var allocates := takesLock && name.Some? && open && reply.queryPrepared && !reply.queryStep.QueryOther?;
      var id := if reply.queryStep.QueryRow? then NextId(reply.queryStep.last) else 1;
      if allocates && TwoParens(call.sql) then plan == Plan(Rewritten(call.sql), [DbInt(id)] + call.params, id, true)
      else plan == Plan(call.sql, call.params, if allocates then id else 0, false)
  {
  }

  lemma OutcomeIs(open: bool, reply: Reply, outcome: Outcome)
    requires outcome == OutcomeFrom(open, reply)
    ensures outcome == Failed <==> open && (!reply.prepared || reply.step == StepOther)
    ensures outcome == Done <==> open && reply.prepared && reply.step == StepDone
  {
  }

  lemma TellingsIs(cfg: Config, call: Call, plan: Plan, outcome: Outcome, settled: Plan)
    requires settled == if outcome != Done && plan.rewritten then AsGiven(call, 0) else plan
    requires !plan.rewritten ==> plan.sql == call.sql && plan.params == call.params
    ensures settled == Settled(call, plan, outcome)
    ensures FinalEvents(cfg, call, plan, outcome, Locks(cfg, call)) ==
            (if outcome != Failed && call.observer && cfg.callback
             then [Told(Inserts, if outcome == Done then Note(plan.sql, plan.params, 0)
                                 else Note(call.sql, call.params, 2))] else [])
            + if (call.observer && cfg.callback) || call.wantId then [Unlocked] else []
  {
  }

  lemma InsertIsAsCoded(cfg: Config, open: bool, call: Call, reply: Reply, r: CallResult, events: seq<Event>)
    requires r == Result(cfg, call, ReadFrom(open, reply), OutcomeFrom(open, reply))
    requires events == InsertEvents(cfg, open, call, reply)
    ensures AsCoded(cfg.slots, cfg.callback, open, call, reply, r.rc, r.id, events)
  {
    var plan, outcome := MakePlan(cfg, call, ReadFrom(open, reply)), OutcomeFrom(open, reply);
    PlanIs(cfg, open, call, reply, plan);
    OutcomeIs(open, reply, outcome);
    TellingsIs(cfg, call, plan, outcome, Settled(call, plan, outcome));
  }

  lemma Joined<T>(a: seq<T>, b: seq<T>, c: seq<T>, d: seq<T>, x: seq<T>, y: seq<T>, z: seq<T>)
    requires b == a + x && c == b + y && d == c + z
    ensures a <= d && d[|a|..] == x + y + z
  {
  }

  ghost predicate Reports(r: CallResult, rc: int, newid: Option<int>) { rc == r.rc && newid == r.id }

  /** The parts of an insert put together. */
  lemma InsertEnds(
    cfg: Config, open: bool, call: Call, reply: Reply, plan: Plan, outcome: Outcome, rc: int, newid: Option<int>,
    before: seq<Event>, planned: seq<Event>, stepped: seq<Event>, after: seq<Event>)
    requires plan == MakePlan(cfg, call, ReadFrom(open, reply)) && outcome == OutcomeFrom(open, reply)
    requires rc == if outcome == Failed then -1 else 0
    requires newid == if outcome == Failed then None else Written(call, Settled(call, plan, outcome))
    requires planned == before + LockEvents(cfg, open, call, reply)
    requires stepped == planned + RunEvents(open, reply, plan.sql, plan.params)
    requires after == stepped + FinalEvents(cfg, call, plan, outcome, Locks(cfg, call))
    ensures Reports(Result(cfg, call, ReadFrom(open, reply), outcome), rc, newid) && before <= after
    ensures AsCoded(cfg.slots, cfg.callback, open, call, reply, rc, newid, after[|before|..])
  {
    Joined(before, planned, stepped, after, LockEvents(cfg, open, call, reply),
           RunEvents(open, reply, plan.sql, plan.params), FinalEvents(cfg, call, plan, outcome, Locks(cfg, call)));
    InsertIsAsCoded(cfg, open, call, reply, Result(cfg, call, ReadFrom(open, reply), outcome), after[|before|..]);
  }

  class Engine {
    const insertSlots: array<Option<string>>
    const deleteSlots: array<Option<string>>
    const updateSlots: array<Option<string>>
    var insertCallback: bool
    var deleteCallback: bool
    var updateCallback: bool
    var open: bool
    var locked: bool
    var stmts: set<nat>
    var vectors: set<nat>
    var next: nat
    var events: seq<Event>

    ghost predicate Valid()
      reads this
    {
      && insertSlots.Length == deleteSlots.Length == updateSlots.Length == MAX_DB_OBSERVER_NUM
      && insertSlots != deleteSlots && insertSlots != updateSlots && deleteSlots != updateSlots
      && (forall h :: h in stmts || h in vectors ==> h < next)
    }

    ghost function Cfg(): Config
      reads this, insertSlots
    {
      Config(insertSlots[..], insertCallback)
    }

    /** Whether a callback is set. */
    predicate Registered(kind: Kind)
      reads this
    {
      match kind
      case Inserts => insertCallback
      case Deletions => deleteCallback
      case Updates => updateCallback
    }

    /** The globals once the database has been opened, or has not. */
    constructor (isOpen: bool)
      ensures Valid() && fresh(insertSlots) && fresh(deleteSlots) && fresh(updateSlots)
      ensures Cfg() == Config(seq(MAX_DB_OBSERVER_NUM, _ => None), false)
      ensures open == isOpen && !locked && stmts == {} && vectors == {} && events == []
    {
      insertSlots := new Option<string>[MAX_DB_OBSERVER_NUM](_ => None);
      deleteSlots := new Option<string>[MAX_DB_OBSERVER_NUM](_ => None);
      updateSlots := new Option<string>[MAX_DB_OBSERVER_NUM](_ => None);
      insertCallback, deleteCallback, updateCallback := false, false, false;
      open, locked := isOpen, false;
      stmts, vectors, next := {}, {}, 0;
      events := [];
    }

    // -------------------------------------------------------------------------
    // Registration

    /** Registers in the first free slot; -1 and no change if there is none. */
    static method RegisterObserver(slots: array<Option<string>>, name: string) returns (rc: int)
      modifies slots
      ensures rc == 0 || rc == -1
      ensures rc == -1 <==> forall i :: 0 <= i < slots.Length ==> old(slots[i]).Some?
      ensures rc == -1 ==> slots[..] == old(slots[..])
      ensures rc == 0 ==> exists i :: 0 <= i < slots.Length && old(slots[i]) == None &&
                                      (forall j :: 0 <= j < i ==> old(slots[j]).Some?) &&
                                      slots[..] == old(slots[..])[i := Some(name)]
    {
      var i := 0;
      while i < slots.Length && slots[i].Some?
        invariant 0 <= i <= slots.Length
        invariant forall j :: 0 <= j < i ==> slots[j].Some?
        invariant slots[..] == old(slots[..])
      {
        i := i + 1;
      }
      if i == slots.Length {
        return -1;
      }
      slots[i] := Some(name);
      return 0;
    }

    /** A callback is kept once set; `given` is false for a null pointer, which is accepted and sets nothing. */
    method RegisterCallback(kind: Kind, given: bool) returns (rc: int)
      modifies this`insertCallback, this`deleteCallback, this`updateCallback
      ensures rc == if old(Registered(kind)) then -1 else 0
      ensures Registered(kind) == (old(Registered(kind)) || given)
      ensures forall other :: other != kind ==> Registered(other) == old(Registered(other))
    {
      match kind {
        case Inserts =>
          if insertCallback { return -1; }
          insertCallback := given;
        case Deletions =>
          if deleteCallback { return -1; }
          deleteCallback := given;
        case Updates =>
          if updateCallback { return -1; }
          updateCallback := given;
      }
      return 0;
    }

    method UnregisterAllObservers()
      requires Valid()
      modifies insertSlots, deleteSlots, updateSlots
      ensures forall i :: 0 <= i < MAX_DB_OBSERVER_NUM ==>
                insertSlots[i] == None && deleteSlots[i] == None && updateSlots[i] == None
    {
      var i := 0;
      while i < MAX_DB_OBSERVER_NUM
        invariant 0 <= i <= MAX_DB_OBSERVER_NUM
        invariant forall j :: 0 <= j < i ==> insertSlots[j] == None && deleteSlots[j] == None && updateSlots[j] == None
      {
        insertSlots[i], deleteSlots[i], updateSlots[i] := None, None, None;
        i := i + 1;
      }
    }

    // -------------------------------------------------------------------------
    // Resources

    method Lock()
      requires !locked
      modifies this`locked, this`events
      ensures locked && events == old(events) + [Locked]
    {
      locked := true;
      events := events + [Locked];
    }

    method Unlock()
      requires locked
      modifies this`locked, this`events
      ensures !locked && events == old(events) + [Unlocked]
    {
      locked := false;
      events := events + [Unlocked];
    }

    /** A failed prepare yields no statement. */
    method Prepare(prepared: bool) returns (stmt: Option<nat>)
      requires Valid()
      modifies this`stmts, this`next
      ensures Valid()
      ensures stmt.Some? <==> open && prepared
      ensures stmt == None ==> stmts == old(stmts)
      ensures stmt.Some? ==> stmt.value !in old(stmts) && stmts == old(stmts) + {stmt.value}
    {
      if !open || !prepared {
        return None;
      }
      stmt := Some(next);
      stmts := stmts + {next};
      next := next + 1;
    }

    method Finalize(stmt: nat)
      requires Valid() && stmt in stmts
      modifies this`stmts
      ensures Valid() && stmts == old(stmts) - {stmt}
    {
      stmts := stmts - {stmt};
    }

    method AllocVector() returns (v: nat)
      requires Valid()
      modifies this`vectors, this`next
      ensures Valid() && v !in old(vectors) && vectors == old(vectors) + {v}
    {
      v := next;
      vectors := vectors + {v};
      next := next + 1;
    }

    method FreeVector(v: nat)
      requires Valid() && v in vectors
      modifies this`vectors
      ensures Valid() && vectors == old(vectors) - {v}
    {
      vectors := vectors - {v};
    }

    /** The binding loop: every parameter by its type tag, in order. */
    static method Bind(params: seq<DbVal>) returns (values: seq<SqlValue>)
      ensures |values| == |params| && forall i :: 0 <= i < |params| ==> Carries(values[i], params[i])
      ensures values == BoundAll(params)
    {
      values := [];
      var i := 0;
      while i < |params|
        invariant 0 <= i <= |params|
        invariant |values| == i && forall j :: 0 <= j < i ==> values[j] == Bound(params[j])
      {
        match params[i] {
          case DbNull => values := values + [Null];
          case DbInt(n) => values := values + [Integer(n)];
          case DbBigint(n) => values := values + [Integer(n)];
          case DbDouble(d) => values := values + [Real(d)];
          case DbString(s) => values := values + [Text(s)];
          case DbDatetime(s) => values := values + [Text(s)];
        }
        i := i + 1;
      }
      forall k | 0 <= k < |params|
        ensures Carries(values[k], params[k])
      {
        BoundReadsBack(params[k], params[k], values[k]);
      }
    }

    /** Binds the parameters and steps the statement. */
    method BindAndStep(stmt: nat, sql: string, params: seq<DbVal>)
      requires stmt in stmts
      modifies this`events
      ensures events == old(events) + [Ran(sql, BoundAll(params))]
    {
      var values := Bind(params);
      events := events + [Ran(sql, values)];
    }

    // -------------------------------------------------------------------------
    // The sequence read

    /** `sqllite_query`: 0 on a row, -2 on none, -1 on any error; on 0 the caller owns the statement if it
        asked to keep it, and in every other case none is left. */
    method Query(sql: string, params: seq<DbVal>, keep: bool, reply: Reply) returns (rc: int, out: Option<nat>)
      requires Valid()
      modifies this`stmts, this`next, this`events
      ensures Valid()
      ensures rc == 0 <==> open && reply.queryPrepared && reply.queryStep.QueryRow?
      ensures rc == -2 <==> open && reply.queryPrepared && reply.queryStep == QueryDone
      ensures rc == 0 || rc == -1 || rc == -2
      ensures out.Some? <==> rc == 0 && keep
      ensures out == None ==> stmts == old(stmts)
      ensures out.Some? ==> out.value !in old(stmts) && stmts == old(stmts) + {out.value}
      ensures events == old(events) + if open && reply.queryPrepared then [Asked(sql, BoundAll(params))] else []
    {
      var stmt := Prepare(reply.queryPrepared);
      if stmt == None {
        return -1, None;
      }
      var values := Bind(params);
      events := events + [Asked(sql, values)];
      if !reply.queryStep.QueryRow? {
        Finalize(stmt.value);
        return if reply.queryStep == QueryDone then -2 else -1, None;
      }
      if keep {
        return 0, stmt;
      }
      Finalize(stmt.value);
      return 0, None;
    }

    /** Reads the sequence of a table and allocates the next id: 1 where there is no row, and false where the
        read failed. */
    method ReadNextId(name: string, reply: Reply) returns (ok: bool, id: int)
      requires Valid()
      modifies this`stmts, this`next, this`events
      ensures Valid() && stmts == old(stmts)
      ensures ok <==> open && reply.queryPrepared && !reply.queryStep.QueryOther?
      ensures ok && reply.queryStep.QueryRow? ==>
                id > reply.queryStep.last && id % SERVER_NUM_CYC != 0 && id == NextId(reply.queryStep.last)
      ensures ok && reply.queryStep == QueryDone ==> id == 1
      ensures !ok ==> id == 0
      ensures ok <==> ReadFrom(open, reply) != ReadError
      ensures id == AllocatedId(ReadFrom(open, reply))
      ensures events == old(events) + if open && reply.queryPrepared then [Asked(SequenceQuery(name), [])] else []
    {
      var query := "select seq from sqlite_sequence where name='";
      query := query + name;
      query := query + "'";
      var rc, stmt := Query(query, [], true, reply);
      assert BoundAll([]) == [];
      if rc == 0 {
        id := reply.queryStep.last;
        Finalize(stmt.value);
        if (id + 1) % SERVER_NUM_CYC == 0 {
          id := id + 2;
        } else {
          id := id + 1;
        }
        return true, id;
      } else if rc == -2 {
        return true, 1;
      }
      return false, 0;
    }

    /** The slot scan: the first registered name that matches. */
    method FindSlot(sql: string) returns (found: Option<string>)
      requires Valid()
      ensures found == FirstMatch(insertSlots[..], sql)
      ensures found.Some? ==> exists i :: 0 <= i < MAX_DB_OBSERVER_NUM && insertSlots[i] == found &&
                                          Matches(found.value, sql) &&
                                          forall j :: 0 <= j < i && insertSlots[j].Some? ==>
                                            !Matches(insertSlots[j].value, sql)
    {
      ghost var slots := insertSlots[..];
      var i := 0;
      while i < MAX_DB_OBSERVER_NUM && !(insertSlots[i].Some? && Matches(insertSlots[i].value, sql))
        invariant 0 <= i <= MAX_DB_OBSERVER_NUM
        invariant FirstMatch(slots, sql) == FirstMatch(slots[i..], sql)
        invariant forall j :: 0 <= j < i && insertSlots[j].Some? ==> !Matches(insertSlots[j].value, sql)
      {
        assert slots[i..][1..] == slots[i + 1..];
        i := i + 1;
      }
      assert i < MAX_DB_OBSERVER_NUM ==> FirstMatch(slots, sql) == slots[i];
      return if i < MAX_DB_OBSERVER_NUM then insertSlots[i] else None;
    }

    /** The text surgery, if there are two parentheses. */
    static method Surgery(sql: string) returns (r: Option<string>)
      ensures r == if TwoParens(sql) then Some(Rewritten(sql)) else None
    {
      var line := IndexOf(sql, '(', 0);
      if line == |sql| {
        return None;
      }
      var sqlstr := sql[..line + 1] + "id,";
      var lineend := IndexOf(sql, '(', line + 1);
      if lineend == |sql| {
        return None;
      }
      sqlstr := sqlstr + sql[line + 1..lineend + 1];
      sqlstr := sqlstr + "?,";
      sqlstr := sqlstr + sql[lineend + 1..];
      return Some(sqlstr);
    }

    /** The allocation and the rewrite of a call that holds the lock, after the slot scan. */
    method PlanLocked(call: Call, reply: Reply) returns (plan: Plan, vector: Option<nat>)
      requires Valid()
      modifies this`stmts, this`vectors, this`next, this`events
      ensures Valid() && stmts == old(stmts)
      ensures plan == LockedPlan(Cfg(), call, ReadFrom(open, reply))
      ensures vector.Some? <==> plan.rewritten
      ensures vector == None ==> vectors == old(vectors)
      ensures vector.Some? ==> vector.value !in old(vectors) && vectors == old(vectors) + {vector.value}
      ensures events == old(events) + QueryEvents(insertSlots[..], open, call, reply)
    {
      var found := FindSlot(call.sql);
      if found == None {
        return AsGiven(call, 0), None;
      }
      var ok, id := ReadNextId(found.value, reply);
      if !ok {
        return AsGiven(call, 0), None;
      }
      var sqlstr := Surgery(call.sql);
      if sqlstr == None {
        return AsGiven(call, id), None;
      }
      var v := AllocVector();
      return Plan(sqlstr.value, [DbInt(id)] + call.params, id, true), Some(v);
    }

    // -------------------------------------------------------------------------
    // Insert

    /** Every path gives back the lock, the vector and the statements it took, and nothing else. What it
        reports and does is the protocol's, and is spelled out by `AsCoded`. `newid` is what is written to the
        caller's variable, None where the source leaves it alone. */
    method Insert(call: Call, reply: Reply) returns (rc: int, newid: Option<int>)
      requires Valid() && !locked
      modifies this`locked, this`stmts, this`vectors, this`next, this`events
      ensures Valid()
      ensures !locked && stmts == old(stmts) && vectors == old(vectors)
      ensures Reports(Result(Cfg(), call, ReadFrom(open, reply), OutcomeFrom(open, reply)), rc, newid)
      ensures old(events) <= events
      ensures AsCoded(insertSlots[..], insertCallback, open, call, reply, rc, newid, events[|old(events)|..])
    {
      var plan, vector, hasLock := LockAndPlan(call, reply);
      ghost var planned := events;
      var outcome := RunPlan(plan, reply);
      ghost var stepped := events;
      rc, newid := Finish(call, plan, vector, outcome, hasLock);
      InsertEnds(Cfg(), open, call, reply, plan, outcome, rc, newid, old(events), planned, stepped, events);
    }

    /** Takes the lock if the call is observed or asks for its id, and then plans the statement. */
    method LockAndPlan(call: Call, reply: Reply) returns (plan: Plan, vector: Option<nat>, hasLock: bool)
      requires Valid() && !locked
      modifies this`locked, this`stmts, this`vectors, this`next, this`events
      ensures Valid() && stmts == old(stmts)
      ensures locked == hasLock == Locks(Cfg(), call)
      ensures plan == MakePlan(Cfg(), call, ReadFrom(open, reply))
      ensures vector.Some? <==> plan.rewritten
      ensures vector == None ==> vectors == old(vectors)
      ensures vector.Some? ==> vector.value !in old(vectors) && vectors == old(vectors) + {vector.value}
      ensures events == old(events) + LockEvents(Cfg(), open, call, reply)
    {
      hasLock := (call.observer && insertCallback) || call.wantId;
      plan, vector := AsGiven(call, 0), None;
      if hasLock {
        Lock();
        plan, vector := PlanLocked(call, reply);
      }
    }

    /** What follows the step: withdraw, notify, give back, report. */
    method Finish(call: Call, plan: Plan, vector: Option<nat>, outcome: Outcome, hasLock: bool)
      returns (rc: int, newid: Option<int>)
      requires Valid() && locked == hasLock
      requires (vector.Some? <==> plan.rewritten) && (vector.Some? ==> vector.value in vectors)
      modifies this`locked, this`vectors, this`events
      ensures Valid() && !locked
      ensures vectors == old(vectors) - if vector.Some? then {vector.value} else {}
      ensures rc == if outcome == Failed then -1 else 0
      ensures newid == if outcome == Failed then None else Written(call, Settled(call, plan, outcome))
      ensures events == old(events) + FinalEvents(Cfg(), call, plan, outcome, hasLock)
    {
      if outcome == Failed {
        GiveBack(hasLock, vector);
        return -1, None;
      }
      var told, held := plan, vector;
      if outcome != Done && held.Some? {
        FreeVector(held.value);
        held := None;
        told := AsGiven(call, 0);
      }
      if call.observer && insertCallback {
        events := events + [Told(Inserts, Note(told.sql, told.params, if outcome == Done then 0 else 2))];
      }
      GiveBack(hasLock, held);
      return 0, if call.wantId then Some(told.id) else None;
    }

    /** Prepares, binds, steps and finalizes. */
    method RunPlan(plan: Plan, reply: Reply) returns (outcome: Outcome)
      requires Valid()
      modifies this`stmts, this`next, this`events
      ensures Valid() && stmts == old(stmts)
      ensures outcome == OutcomeFrom(open, reply)
      ensures events == old(events) + RunEvents(open, reply, plan.sql, plan.params)
    {
      var stmt := Prepare(reply.prepared);
      if stmt == None {
        return if open then Failed else Closed;
      }
      BindAndStep(stmt.value, plan.sql, plan.params);
      Finalize(stmt.value);
      return match reply.step case StepDone => Done case StepBusy => Busy case StepOther => Failed;
    }

    method GiveBack(hasLock: bool, vector: Option<nat>)
      requires Valid() && locked == hasLock && (vector.Some? ==> vector.value in vectors)
      modifies this`locked, this`vectors, this`events
      ensures Valid() && !locked
      ensures vectors == old(vectors) - if vector.Some? then {vector.value} else {}
      ensures events == old(events) + if hasLock then [Unlocked] else []
    {
      if hasLock {
        Unlock();
      }
      if vector.Some? {
        FreeVector(vector.value);
      }
    }

    // -------------------------------------------------------------------------
    // Delete and update

    /** The statement is run with all its parameters and without the lock. -1 exactly if it is refused or ends
        in an error other than busy. One notification of a successful observed deletion, of the statement and
        the parameters that ran; the flag is 0 exactly when the local step was done. */
    method Delete(sql: string, params: seq<DbVal>, observer: bool, reply: Reply) returns (rc: int)
      requires Valid()
      modifies this`stmts, this`next, this`events
      ensures Valid() && stmts == old(stmts)
      ensures rc == if open && (!reply.prepared || reply.step == StepOther) then -1 else 0
      ensures
        var done := open && reply.prepared && reply.step == StepDone;
        events == old(events)
                  + (if open && reply.prepared then [Ran(sql, BoundAll(params))] else [])
                  + (if rc == 0 && observer && deleteCallback
                     then [Told(Deletions, Note(sql, params, if done then 0 else 1))] else [])
    {
      var outcome := RunPlan(Plan(sql, params, 0, false), reply);
      if outcome == Failed {
        return -1;
      }
      if observer && deleteCallback {
        events := events + [Told(Deletions, Note(sql, params, if outcome == Done then 0 else 1))];
      }
      return 0;
    }

    /** The same for an update. */
    method Update(sql: string, params: seq<DbVal>, observer: bool, reply: Reply) returns (rc: int)
      requires Valid()
      modifies this`stmts, this`next, this`events
      ensures Valid() && stmts == old(stmts)
      ensures rc == if open && (!reply.prepared || reply.step == StepOther) then -1 else 0
      ensures
        var done := open && reply.prepared && reply.step == StepDone;
        events == old(events)
                  + (if open && reply.prepared then [Ran(sql, BoundAll(params))] else [])
                  + (if rc == 0 && observer && updateCallback
                     then [Told(Updates, Note(sql, params, if done then 0 else 1))] else [])
    {
      var outcome := RunPlan(Plan(sql, params, 0, false), reply);
      if outcome == Failed {
        return -1;
      }
      if observer && updateCallback {
        events := events + [Told(Updates, Note(sql, params, if outcome == Done then 0 else 1))];
      }
      return 0;
    }
  }
}
