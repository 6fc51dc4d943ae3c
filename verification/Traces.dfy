/**
 Concrete runs of the write queue (DBImpl::Write, MakeRoomForWrite, db/db_impl.cc) that show two things the
 interface does not promise: a null batch may be served without a memtable switch, and a stop may lose an
 earlier batch while it keeps a later one.
 */
module Traces {
  import opened Options
  import opened Keys
  import opened Lsm
  import opened Runs
  import opened WriteQueue
  import opened GroupCommit
  import opened Recovery
  import opened Durability

  lemma Extend(states: seq<State>, events: seq<Event>, e: Event, s': State)
    requires Run(states, events) && Step(states[|events|], e, s')
    ensures Run(states + [s'], events + [e])
  {
    hide Step, Opened;
    var ss, es := states + [s'], events + [e];
    forall i: nat | i < |es|
      ensures Step(ss[i], es[i], ss[i + 1])
    {
      if i < |events| {
        assert ss[i] == states[i] && ss[i + 1] == states[i + 1];
        assert Step(states[i], events[i], states[i + 1]);
      }
    }
  }

  /** The front `n` writers go through Lead, AppendLog, SyncLog if they must, InsertOp and Finish. */
  function Led(s: State, n: nat): State
    requires n <= |s.writers|
  {
    s.(phase := Writing(n, GroupOps(s.writers[..n]), s.db.mem, ToLog))
  }

  function Logged(s: State, op: Op): State
    requires s.logNumber in s.logs && s.writers != [] && s.phase.Writing?
  {
    s.(logs := s.logs[s.logNumber := s.logs[s.logNumber] + [LogRecord(s.db.lastSequence + 1, [op])]],
       phase := s.phase.(stage := if s.writers[0].sync then ToSync else Inserting(0)))
  }

  function SyncedState(s: State): State
    requires s.logNumber in s.logs && s.phase.Writing?
  {
    s.(synced := s.synced[s.logNumber := |s.logs[s.logNumber]|], phase := s.phase.(stage := Inserting(0)))
  }

  function WithOp(s: State, op: Op): State
    requires s.phase.Writing?
  {
    s.(db := s.db.(mem := Inserted(s.db.mem, EntryOf(op, s.db.lastSequence + 1))),
      phase := s.phase.(stage := Inserting(1)))
  }

  function Finished(s: State, n: nat): State
    requires n <= |s.writers|
  {
    s.(db := s.db.(lastSequence := s.db.lastSequence + 1), writers := s.writers[n..],
       acked := s.acked + Acks(s.writers[..n], s.db.lastSequence), phase := Waiting, switched := false)
  }

  /** Everyone in the queue can be served together, and there is one operation to write. */
  ghost predicate Ready(s: State, op: Op) {
    && s.phase.Waiting? && s.writers != [] && s.writers[0].batch.Some? && s.logNumber in s.logs
    && IsGroup(s.writers, |s.writers|) && GroupOps(s.writers) == [op] && s.db.lastSequence + 1 < MAX_SEQUENCE
  }

  /** What serving everyone in the queue makes of the state. */
  ghost predicate Served(s: State, op: Op, s': State) {
    && s.logNumber in s.logs && s.writers != []
    && s'.db == s.db.(mem := s'.db.mem, lastSequence := s.db.lastSequence + 1)
    && var logs := s.logs[s.logNumber := s.logs[s.logNumber] + [LogRecord(s.db.lastSequence + 1, [op])]];
       s' == s.(db := s'.db, writers := [], acked := s.acked + Acks(s.writers, s.db.lastSequence),
                phase := Waiting, switched := false, logs := logs,
                synced := if s.writers[0].sync then s.synced[s.logNumber := |logs[s.logNumber]|] else s.synced)
  }

  predicate NoSwitch(events: seq<Event>) {
    forall e <- events :: !e.Switch?
  }

  lemma Serve(states: seq<State>, events: seq<Event>, op: Op) returns (ss: seq<State>, es: seq<Event>)
    requires Run(states, events) && Ready(states[|events|], op)
    ensures Run(ss, es) && events <= es && states <= ss && NoSwitch(es[|events|..])
    ensures Served(states[|events|], op, ss[|es|])
  {
    hide Opened, Inserted, GroupOps, IsGroup, Acks, Step, Run;
    assert |states| == |events| + 1 by {
      RunLength(states, events);
    }
    var s := states[|events|];
    var n := |s.writers|;
    assert s.writers[..n] == s.writers;
    var s1 := Led(s, n);
    LedStep(s, n, op);
    Extend(states, events, Lead, s1);
    var s2 := Logged(s1, op);
    LoggedStep(s1, op);
    Extend(states + [s1], events + [Lead], AppendLog, s2);
    ss, es := states + [s1] + [s2], events + [Lead] + [AppendLog];
    var s3 := s2;
    if s.writers[0].sync {
      s3 := SyncedState(s2);
      SyncedStep(s2);
      Extend(ss, es, SyncLog, s3);
      ss, es := ss + [s3], es + [SyncLog];
    }
    RunLength(ss, es);
    var s4 := WithOp(s3, op);
    WithOpStep(s3, op);
    Extend(ss, es, InsertOp, s4);
    ss, es := ss + [s4], es + [InsertOp];
    RunLength(ss, es);
    FinishedStep(s4, n, op);
    Extend(ss, es, Finish, Finished(s4, n));
    ss, es := ss + [Finished(s4, n)], es + [Finish];
    RunLength(ss, es);
  }

  lemma RunLength(states: seq<State>, events: seq<Event>)
    requires Run(states, events)
    ensures |states| == |events| + 1
  {
    hide Opened, Step;
  }

  lemma LedStep(s: State, n: nat, op: Op)
    requires Ready(s, op) && n == |s.writers|
    ensures Step(s, Lead, Led(s, n)) && Led(s, n).phase.ops == [op]
  {
    hide IsGroup, GroupOps;
    assert s.writers[..n] == s.writers;
  }

  lemma LoggedStep(s: State, op: Op)
    requires s.phase.Writing? && s.phase.stage.ToLog? && s.phase.ops == [op] && s.logNumber in s.logs && s.writers != []
    ensures Step(s, AppendLog, Logged(s, op))
  {
  }

  lemma SyncedStep(s: State)
    requires s.phase.Writing? && s.phase.stage.ToSync? && s.logNumber in s.logs
    ensures Step(s, SyncLog, SyncedState(s))
  {
  }

  lemma WithOpStep(s: State, op: Op)
    requires s.phase.Writing? && s.phase.stage == Inserting(0) && s.phase.ops == [op]
    ensures Step(s, InsertOp, WithOp(s, op))
  {
    hide Inserted;
  }

  lemma FinishedStep(s: State, n: nat, op: Op)
    requires s.phase.Writing? && s.phase.stage == Inserting(1) && s.phase.ops == [op] && s.phase.group == n
    requires 0 < n <= |s.writers|
    ensures Step(s, Finish, Finished(s, n))
  {
    hide Acks;
  }

  function WithArrival(s: State, w: Writer): State {
    s.(writers := s.writers + [w], arrived := s.arrived + [w])
  }

  lemma Arrival(states: seq<State>, events: seq<Event>, w: Writer)
    requires Run(states, events)
    ensures Run(states + [WithArrival(states[|events|], w)], events + [Arrive(w)])
  {
    hide Opened, Step;
    assert Step(states[|events|], Arrive(w), WithArrival(states[|events|], w)) by {
      ArrivalStep(states[|events|], w);
    }
    Extend(states, events, Arrive(w), WithArrival(states[|events|], w));
  }

  lemma ArrivalStep(s: State, w: Writer)
    ensures Step(s, Arrive(w), WithArrival(s, w))
  {
  }

  lemma OneReady(s: State, op: Op, w: Writer)
    requires s.phase.Waiting? && s.writers == [w] && w.batch == Some([op]) && s.logNumber in s.logs
    requires s.db.lastSequence + 1 < MAX_SEQUENCE
    ensures Ready(s, op)
  {
    GroupGrows([w], 0);
    NoGroup([w]);
    assert [w][..1] == [w];
  }

  // ---- a null batch served without a switch --------------------------------------------------------------

  const OP := Put(1.0, [7])
  const WITH_BATCH := Writer(Some([OP]), 20, false)
  const NULL_BATCH := Writer(None, 0, false)

  lemma PairReady(s: State)
    requires s.phase.Waiting? && s.writers == [WITH_BATCH, NULL_BATCH] && s.logNumber in s.logs
    requires s.db.lastSequence + 1 < MAX_SEQUENCE
    ensures Ready(s, OP)
  {
    var ws := [WITH_BATCH, NULL_BATCH];
    GroupGrows(ws, 0);
    GroupGrows(ws, 1);
    NoGroup(ws);
    assert ws[..2] == ws;
    assert Joins(ws, 1);
  }

  /**
   From any opened database: a null batch that queues behind a small one is acknowledged with it, and no
   memtable was switched.
   */
  lemma AbsorbedNullBatch(s: State) returns (states: seq<State>, events: seq<Event>)
    requires Opened(s) && s.db.lastSequence + 1 < MAX_SEQUENCE
    ensures Run(states, events) && states[0] == s && NoSwitch(events)
    ensures var s' := states[|events|];
      && s'.logNumber == s.logNumber && s'.db.imm.None?
      && |s'.acked| == 2 && s'.acked[1].writer == NULL_BATCH
  {
    hide Inserted, Inv, Step, Ready, GroupOps, IsGroup;
    states, events := [s], [];
    Arrival(states, events, WITH_BATCH);
    var s1 := WithArrival(s, WITH_BATCH);
    Arrival([s] + [s1], [] + [Arrive(WITH_BATCH)], NULL_BATCH);
    var s2 := WithArrival(s1, NULL_BATCH);
    assert s2.writers == [WITH_BATCH, NULL_BATCH];
    PairReady(s2);
    var before := [] + [Arrive(WITH_BATCH)] + [Arrive(NULL_BATCH)];
    states, events := Serve([s] + [s1] + [s2], before, OP);
    assert events == before + events[|before|..];
  }

  // ---- a later batch outlives an earlier one -------------------------------------------------------------

  const LATER := Put(2.0, [8])
  const SYNCED_BATCH := Writer(Some([LATER]), 20, true)

  function SwitchedState(s: State): State {
    s.(db := s.db.(mem := [], imm := Some(s.db.mem), nextFile := s.db.nextFile + 1), switched := true,
       logs := s.logs[s.db.nextFile := []], synced := s.synced[s.db.nextFile := 0], logNumber := s.db.nextFile,
       immBase := s.memBase, memBase := s.db.lastSequence)
  }

  lemma SwitchedStep(s: State)
    requires s.phase.Waiting? && s.writers != [] && s.db.imm.None?
    ensures Step(s, Switch, SwitchedState(s))
  {
  }

  /** A batch served without a sync, with a second one queued behind it. */
  ghost predicate FirstServed(s: State, t: State) {
    && t.phase.Waiting? && t.writers == [SYNCED_BATCH] && t.acked == [Ack(WITH_BATCH, s.db.lastSequence + 1)]
    && t.db.imm.None? && t.db.lastSequence == s.db.lastSequence + 1 && t.memBase == s.db.lastSequence
    && t.logNumber == t.manifestLog && t.logNumber < t.db.nextFile
    && t.logs.Keys == {t.logNumber} && t.synced == map[t.logNumber := 0]
  }

  lemma ServeFirst(s: State) returns (states: seq<State>, events: seq<Event>)
    requires Opened(s) && s.db.lastSequence + 2 < MAX_SEQUENCE
    ensures Run(states, events) && states[0] == s && FirstServed(s, states[|events|])
  {
    hide Inserted, Inv, Step, Ready, GroupOps, IsGroup, Acks;
    Arrival([s], [], WITH_BATCH);
    var s1 := WithArrival(s, WITH_BATCH);
    assert s1.writers == [WITH_BATCH];
    OneReady(s1, OP, WITH_BATCH);
    states, events := Serve([s] + [s1], [] + [Arrive(WITH_BATCH)], OP);
    var s2 := states[|events|];
    AcksOfOne(WITH_BATCH, s.db.lastSequence);
    assert s.acked + [Ack(WITH_BATCH, s.db.lastSequence + 1)] == [Ack(WITH_BATCH, s.db.lastSequence + 1)];
    Arrival(states, events, SYNCED_BATCH);
    states, events := states + [WithArrival(s2, SYNCED_BATCH)], events + [Arrive(SYNCED_BATCH)];
  }

  /** The state after the switch and the second batch. */
  ghost predicate SecondServed(s: State, t: State) {
    && t.acked == [Ack(WITH_BATCH, s.db.lastSequence + 1), Ack(SYNCED_BATCH, s.db.lastSequence + 2)]
    && t.db.imm.Some? && t.immBase == s.db.lastSequence && t.manifestLog != t.logNumber
    && t.logs.Keys == {t.manifestLog, t.logNumber} && t.synced == map[t.manifestLog := 0, t.logNumber := 1]
    && t.logs[t.logNumber] == [LogRecord(s.db.lastSequence + 2, [LATER])]
  }

  lemma ServeSecond(s: State, states0: seq<State>, events0: seq<Event>) returns (states: seq<State>, events: seq<Event>)
    requires Run(states0, events0) && states0[0] == s && FirstServed(s, states0[|events0|])
    requires s.db.lastSequence + 2 < MAX_SEQUENCE
    ensures Run(states, events) && states[0] == s && SecondServed(s, states[|events|])
  {
    hide Inserted, Opened, Step, Ready, GroupOps, IsGroup, Acks;
    var t := states0[|events0|];
    SwitchedStep(t);
    var u := SwitchedState(t);
    Extend(states0, events0, Switch, u);
    states, events := states0 + [u], events0 + [Switch];
    OneReady(u, LATER, SYNCED_BATCH);
    states, events := Serve(states, events, LATER);
    AcksOfOne(SYNCED_BATCH, u.db.lastSequence);
    var none: seq<LogRecord> := [];
    assert none + [LogRecord(s.db.lastSequence + 2, [LATER])] == [LogRecord(s.db.lastSequence + 2, [LATER])];
  }

  /**
   From any opened database: a batch is acknowledged without a sync, the memtable is switched, and a second
   batch is acknowledged with a sync.  A stop that leaves what was synced keeps the second and loses the first.
   */
  lemma LaterOutlivesEarlier(s: State) returns (states: seq<State>, events: seq<Event>, kept: map<nat, seq<LogRecord>>)
    requires Opened(s) && s.db.lastSequence + 2 < MAX_SEQUENCE
    ensures Run(states, events) && states[0] == s && Stopped(states[|events|], kept)
    ensures var s' := states[|events|];
      && |s'.acked| == 2 && s'.acked[0].writer == WITH_BATCH && s'.acked[1].writer == SYNCED_BATCH
      && KeptOld(s', kept) == [] && Base(s') < s'.acked[0].first
      && KeptNew(s', kept) == [LATER]
  {
    hide Run, Opened;
    states, events := ServeFirst(s);
    states, events := ServeSecond(s, states, events);
    RunLength(states, events);
    kept := OnlySynced(states[|events|]);
    EmptyAndOne(s.db.lastSequence + 2);
  }

  lemma AcksOfOne(w: Writer, last: nat)
    ensures Acks([w], last) == [Ack(w, last + 1)]
  {
    NoGroup([w]);
  }

  lemma EmptyAndOne(sequence: nat)
    ensures LogOps([]) == [] && LogOps([LogRecord(sequence, [LATER])]) == [LATER]
  {
    var none: seq<LogRecord> := [];
    LogGrows(none, LogRecord(sequence, [LATER]));
    assert none + [LogRecord(sequence, [LATER])] == [LogRecord(sequence, [LATER])];
  }
}
