/**
 The engine's calls and the steps of the threads are the same calls: given the answers SQLite gives in a
 state of the threads, `Engine.Insert` reports and tells what the steps report and tell.
 */
module EngineThreads {
  import opened Common
  import opened SqlText
  import opened Store
  import opened InsertProtocol
  import E = Engine
  import T = InsertThreads
  import R = InsertRace

  /** The answer of the sequence query for a table: its row, or no row. */
  ghost predicate Answers(reply: E.Reply, t: Table) {
    && reply.queryPrepared
    && (t.last.Some? ==> reply.queryStep == E.QueryRow(t.last.value))
    && (t.last == None ==> reply.queryStep == E.QueryDone)
  }

  /** The statement ends as given: done, busy, or in an error of its own. */
  ghost predicate Ends(open: bool, reply: E.Reply, outcome: Outcome) {
    match outcome
    case Done => open && reply.prepared && reply.step == E.StepDone
    case Busy => open && reply.prepared && reply.step == E.StepBusy
    case Failed => open && (!reply.prepared || reply.step == E.StepOther)
    case Closed => !open
  }

  /** The engine reads a table's sequence as the threads do. */
  lemma ReadsAlike(reply: E.Reply, t: Table)
    requires Answers(reply, t)
    ensures E.ReadFrom(true, reply) == T.ReadOf(t)
  {
  }

  lemma EndsAlike(open: bool, reply: E.Reply, outcome: Outcome)
    ensures Ends(open, reply, outcome) <==> E.OutcomeFrom(open, reply) == outcome
  {
  }

  /** The protocol does not look at the answer to a query it does not make. */
  lemma UnaskedRead(cfg: Config, call: Call, a: SeqRead, b: SeqRead, outcome: Outcome)
    requires !Locks(cfg, call) || FirstMatch(cfg.slots, call.sql) == None || a == b
    ensures Result(cfg, call, a, outcome) == Result(cfg, call, b, outcome)
  {
  }

  /** The answer to the sequence query of a call: that of the table the slot scan finds, or an error. */
  ghost predicate Replies(cfg: Config, s: T.Sys, call: Call, reply: E.Reply, ok: bool) {
    match FirstMatch(cfg.slots, call.sql)
    case None => true
    case Some(name) =>
      if ok then Answers(reply, T.TableAt(s, name)) else !reply.queryPrepared || reply.queryStep == E.QueryOther
  }

  lemma AnswersAlike(cfg: Config, s: T.Sys, call: Call, reply: E.Reply, ok: bool, outcome: Outcome)
    requires Replies(cfg, s, call, reply, ok)
    ensures Result(cfg, call, T.Answer(cfg, s, call, ok), outcome) ==
            Result(cfg, call, E.ReadFrom(true, reply), outcome)
  {
    UnaskedRead(cfg, call, T.Answer(cfg, s, call, ok), E.ReadFrom(true, reply), outcome);
  }

  /** A locked call in a quiet moment: what the thread reports and tells is what the engine codes. */
  lemma LockedCallsAgree(
    cfg: Config, s: T.Sys, t: nat, call: Call, reply: E.Reply, ok: bool, outcome: Outcome)
    returns (steps: seq<T.Step>, r: T.Sys, rc: int, id: Option<int>, events: seq<E.Event>)
    requires T.PcOf(s, t) == T.Idle && s.holder == None && Locks(cfg, call)
    requires Replies(cfg, s, call, reply, ok) && Ends(true, reply, outcome)
    requires outcome == Done ==> T.Ran(s, LockedPlan(cfg, call, T.Answer(cfg, s, call, ok))).Some?
    ensures T.Run(cfg, s, steps) == Some(r) && T.PcOf(r, t) == T.Leaving(rc, id, true)
    ensures E.AsCoded(cfg.slots, cfg.callback, true, call, reply, rc, id, events)
    ensures r.log == s.log + ToldIn(events)
  {
    AnswersAlike(cfg, s, call, reply, ok, outcome);
    EndsAlike(true, reply, outcome);
    var front := R.UpToStep(t, call, ok, outcome);
    steps := if outcome == Failed then front else front + [T.Notify(t)];
    R.SoloCall(cfg, s, t, call, ok, outcome);
    r := T.Run(cfg, s, steps).value;
    rc, id, events := Coded(cfg, call, reply, outcome, E.ReadFrom(true, reply));
  }

  /** A call without the lock, at any moment. */
  lemma UnlockedCallsAgree(cfg: Config, s: T.Sys, t: nat, call: Call, reply: E.Reply, outcome: Outcome)
    returns (steps: seq<T.Step>, r: T.Sys, rc: int, id: Option<int>, events: seq<E.Event>)
    requires T.PcOf(s, t) == T.Idle && !Locks(cfg, call) && Ends(true, reply, outcome)
    requires outcome == Done ==>
               Denote(call.sql, call.params).Some? &&
               Store.Execute(T.TableAt(s, Target(call.sql)), Denote(call.sql, call.params).value).Some?
    ensures T.Run(cfg, s, steps) == Some(r) && T.PcOf(r, t) == T.Leaving(rc, id, false)
    ensures E.AsCoded(cfg.slots, cfg.callback, true, call, reply, rc, id, events)
    ensures r.log == s.log + ToldIn(events)
  {
    EndsAlike(true, reply, outcome);
    var read, after := E.ReadFrom(true, reply), s;
    steps, r, after := R.UnlockedCall(cfg, s, t, call, read, outcome, Target(call.sql));
    rc, id, events := Coded(cfg, call, reply, outcome, read);
  }

  /** The notes told to the insert callback. */
  ghost function ToldIn(events: seq<E.Event>): seq<Note> {
    if events == [] then []
    else (if events[0].Told? && events[0].kind == E.Inserts then [events[0].note] else []) + ToldIn(events[1..])
  }

  lemma {:induction false} ToldConcat(a: seq<E.Event>, b: seq<E.Event>)
    ensures ToldIn(a + b) == ToldIn(a) + ToldIn(b)
  {
    if a == [] {
      assert a + b == b;
    } else {
      assert (a + b)[1..] == a[1..] + b;
      ToldConcat(a[1..], b);
    }
  }

  lemma {:induction false} ToldTellings(notes: seq<Note>)
    ensures ToldIn(E.Tellings(notes)) == notes
  {
    if notes != [] {
      assert E.Tellings(notes)[1..] == E.Tellings(notes[1..]);
      ToldTellings(notes[1..]);
    }
  }

  lemma {:induction false} SilentPart(events: seq<E.Event>)
    requires forall i :: 0 <= i < |events| ==> !events[i].Told?
    ensures ToldIn(events) == []
  {
    if events != [] {
      SilentPart(events[1..]);
    }
  }

  lemma Coded(cfg: Config, call: Call, reply: E.Reply, outcome: Outcome, read: SeqRead)
    returns (rc: int, id: Option<int>, events: seq<E.Event>)
    requires read == E.ReadFrom(true, reply) && outcome == E.OutcomeFrom(true, reply)
    ensures E.AsCoded(cfg.slots, cfg.callback, true, call, reply, rc, id, events)
    ensures
      var r := Result(cfg, call, read, outcome);
      rc == r.rc && id == r.id && ToldIn(events) == r.notes
  {
    var r := Result(cfg, call, read, outcome);
    rc, id, events := r.rc, r.id, E.InsertEvents(cfg, true, call, reply);
    E.InsertIsAsCoded(cfg, true, call, reply, r, events);
    ToldByInsert(cfg, call, reply, outcome, MakePlan(cfg, call, read), r.notes);
  }

  lemma ToldByInsert(cfg: Config, call: Call, reply: E.Reply, outcome: Outcome, plan: Plan, notes: seq<Note>)
    requires plan == MakePlan(cfg, call, E.ReadFrom(true, reply)) && outcome == E.OutcomeFrom(true, reply)
    requires notes == if outcome == Failed then [] else NotesFor(cfg, call, Settled(call, plan, outcome), Flag(outcome))
    ensures ToldIn(E.InsertEvents(cfg, true, call, reply)) == notes
  {
    var lock, run := E.LockEvents(cfg, true, call, reply), E.RunEvents(true, reply, plan.sql, plan.params);
    ToldMiddle(lock + run, notes, if Locks(cfg, call) then [E.Unlocked] else []);
  }

  lemma ToldMiddle(before: seq<E.Event>, notes: seq<Note>, after: seq<E.Event>)
    requires forall i :: 0 <= i < |before| ==> !before[i].Told?
    requires forall i :: 0 <= i < |after| ==> !after[i].Told?
    ensures ToldIn(before + (E.Tellings(notes) + after)) == notes
  {
    ToldConcat(before, E.Tellings(notes) + after);
    ToldConcat(E.Tellings(notes), after);
    ToldTellings(notes);
    SilentPart(before);
    SilentPart(after);
  }
}
