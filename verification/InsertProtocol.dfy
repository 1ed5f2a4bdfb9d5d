/**
 One call of `sqllite_insert` (P2P_Server_src/db_sqlite.cpp) as decisions over what SQLite answers:
 when it locks, which statement it runs, what it reports and whom it tells.
 */
module InsertProtocol {
  import opened Common
  import opened SqlText
  import opened Allocator

  /** The global observer slots, and whether an insert callback is registered. */
  datatype Config = Config(slots: seq<Option<string>>, callback: bool)

  datatype Call = Call(sql: string, params: seq<DbVal>, observer: bool, wantId: bool)

  /** The answer of the sequence query: a row, no row, or an error. */
  datatype SeqRead = SeqRow(last: int) | NoRow | ReadError

  /** Preparing and stepping the statement: done, busy, no open database, or any other error. */
  datatype Outcome = Done | Busy | Closed | Failed

  /** What is about to run: the text, its parameters, the id to report. */
  datatype Plan = Plan(sql: string, params: seq<DbVal>, id: int, rewritten: bool)

  datatype Note = Note(sql: string, params: seq<DbVal>, flag: int)

  /** `id` is what is written to the caller's id variable, if anything is. */
  datatype CallResult = CallResult(rc: int, id: Option<int>, notes: seq<Note>)

  predicate Notifies(cfg: Config, call: Call) { call.observer && cfg.callback }

  predicate Locks(cfg: Config, call: Call) { Notifies(cfg, call) || call.wantId }

  function AllocatedId(read: SeqRead): int {
    match read
    case SeqRow(last) => NextId(last)
    case NoRow => 1
    case ReadError => 0
  }

  function AsGiven(call: Call, id: int): Plan { Plan(call.sql, call.params, id, false) }

  /** The plan of a call that holds the lock, given the sequence read. */
  function LockedPlan(cfg: Config, call: Call, read: SeqRead): Plan {
    if FirstMatch(cfg.slots, call.sql) == None || read == ReadError then AsGiven(call, 0)
    else if !TwoParens(call.sql) then AsGiven(call, AllocatedId(read))
    else Plan(Rewritten(call.sql), Extended(AllocatedId(read), call.params), AllocatedId(read), true)
  }

  function MakePlan(cfg: Config, call: Call, read: SeqRead): Plan {
    if Locks(cfg, call) then LockedPlan(cfg, call, read) else AsGiven(call, 0)
  }

  /** A busy or closed database withdraws the rewritten statement and its id. */
  function Settled(call: Call, plan: Plan, outcome: Outcome): Plan {
    if outcome != Done && plan.rewritten then AsGiven(call, 0) else plan
  }

  function Flag(outcome: Outcome): int { if outcome == Done then 0 else 2 }

  function NotesFor(cfg: Config, call: Call, plan: Plan, flag: int): seq<Note> {
    if Notifies(cfg, call) then [Note(plan.sql, plan.params, flag)] else []
  }

  function Written(call: Call, plan: Plan): Option<int> {
    if call.wantId then Some(plan.id) else None
  }

  /** The whole call. */
  function Result(cfg: Config, call: Call, read: SeqRead, outcome: Outcome): CallResult {
    var plan := Settled(call, MakePlan(cfg, call, read), outcome);
    if outcome == Failed then CallResult(-1, None, [])
    else CallResult(0, Written(call, plan), NotesFor(cfg, call, plan, Flag(outcome)))
  }

  /** Success tells an observed call's callback exactly once and failure never; the flag is 0
      exactly when the local step was done, and then the callback sees what was run. */
  lemma NotificationContract(cfg: Config, call: Call, read: SeqRead, outcome: Outcome)
    ensures
      var r := Result(cfg, call, read, outcome);
      var plan := MakePlan(cfg, call, read);
      && (r.rc == 0 || r.rc == -1) && (r.rc == -1 <==> outcome == Failed)
      && |r.notes| == (if r.rc == 0 && Notifies(cfg, call) then 1 else 0)
      && (forall note :: note in r.notes ==>
            && (note.flag == 0 || note.flag == 2)
            && (note.flag == 0 <==> outcome == Done)
            && (note.flag == 0 ==> note.sql == plan.sql && note.params == plan.params)
            && (note.flag == 2 ==> note.sql == call.sql && note.params == call.params))
  {
  }

  /** An id is written exactly by a successful call that asks for it. It is nonzero exactly when a
      watched table was found, its sequence was read, and either the statement has one parenthesis
      only or the rewritten insert was done; a one-parenthesis statement does not use that id. */
  lemma ReportedIdIff(cfg: Config, call: Call, read: SeqRead, outcome: Outcome)
    ensures
      var r := Result(cfg, call, read, outcome);
      && (r.id.Some? <==> call.wantId && r.rc == 0)
      && (r.id.Some? ==>
          (r.id.value != 0 <==>
           && FirstMatch(cfg.slots, call.sql).Some?
           && read != ReadError
           && (TwoParens(call.sql) ==> outcome == Done)))
      && (r.id.Some? && r.id.value != 0 ==> r.id.value == AllocatedId(read))
      && (r.id.Some? && TwoParens(call.sql) ==>
          (r.id.value != 0 <==> MakePlan(cfg, call, read).rewritten && outcome == Done))
  {
  }
}
