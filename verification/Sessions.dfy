/**
 A database that is stopped and opened again, any number of times (DB::Open, db/db_impl.cc): what one session
 leaves is what the next one starts from.
 */
module Sessions {
  import opened Options
  import opened Keys
  import opened Lsm
  import opened Runs
  import opened WriteQueue
  import opened GroupCommit
  import opened Recovery
  import opened Durability

  // ---- opening again -------------------------------------------------------------------------------------

  /** A database as DB::Open hands it over: a new log, which the manifest names, and no other. */
  function StateAt(r: Db): State {
    State(r.(nextFile := r.nextFile + 1), [], Waiting, false, [], [], map[r.nextFile := []], map[r.nextFile := 0],
          r.nextFile, r.nextFile, r.lastSequence, r.nextFile + 1, r.lastSequence, r.lastSequence, r.lastSequence)
  }

  /** What is left by a stop is what the opened database holds. */
  ghost predicate Reopens(s: State, kept: map<nat, seq<LogRecord>>, t: State) {
    && Opened(t) && All(t.db) == RecoveredEntries(s, kept)
    && forall n :: n in s.logs && n >= s.manifestLog ==> n < t.logNumber
  }

  lemma StateAtIsOpened(r: Db)
    requires Inv(r) && r.mem == [] && r.imm.None? && r.snapshots == []
    ensures Opened(StateAt(r)) && All(StateAt(r).db) == All(r)
  {
    hide Inv, Tables;
    MoreNumbers(r.levels, r.lastSequence, r.nextFile, r.nextFile + 1);
  }

  /**
   DB::Open after a stop: recovery, a new log with a number that no log to recover has, a manifest that names
   it, and the removal of the old logs.  The result can run again.
   */
  method Open(s: State, kept: map<nat, seq<LogRecord>>, listing: seq<nat>) returns (t: State)
    requires QInv(s) && Stopped(s, kept) && Lists(listing, s.logs)
    ensures Reopens(s, kept, t)
    ensures t.db.lastSequence == if s.manifestLast < KeptReach(s, kept) then KeptReach(s, kept) else s.manifestLast
  {
    hide QInv, Stopped, Lists, Inv, Opened, All, RecoveredEntries, KeptReach;
    var r := Reopen(s, kept, listing);
    StateAtIsOpened(r);
    t := StateAt(r);
  }

  // ---- sessions ------------------------------------------------------------------------------------------

  /** A run of the database, and what the stop that ends it leaves of the logs. */
  datatype Session = Session(states: seq<State>, events: seq<Event>, kept: map<nat, seq<LogRecord>>)

  ghost predicate IsSession(x: Session) {
    && Run(x.states, x.events) && |x.states| == |x.events| + 1
    && Stopped(x.states[|x.events|], x.kept)
    && forall i: nat :: i < |x.events| ==> HarmlessForTables(x.states[i], x.events[i])
  }

  function First(x: Session): State
    requires x.states != []
  {
    x.states[0]
  }

  function Final(x: Session): State
    requires x.states != []
  {
    x.states[|x.states| - 1]
  }

  /** Each session starts from what the one before left. */
  ghost predicate Chain(xs: seq<Session>) {
    && (forall i :: 0 <= i < |xs| ==> IsSession(xs[i]))
    && forall i {:trigger xs[i]} :: 0 < i < |xs| ==> Reopens(Final(xs[i - 1]), xs[i - 1].kept, First(xs[i]))
  }

  /** The operations of a session that outlive its stop. */
  function Outlived(x: Session): seq<Op>
    requires x.states != []
  {
    var s := Final(x);
    if 0 <= Durability.Before(s, x.kept) <= After(s) <= End(s, x.kept) <= |AllWritten(s)| then
      AllWritten(s)[..Durability.Before(s, x.kept)] + AllWritten(s)[After(s)..End(s, x.kept)]
    else []
  }

  ghost function OutlivedAll(xs: seq<Session>, n: nat): seq<Op>
    requires n <= |xs| && forall i :: 0 <= i < n ==> xs[i].states != []
  {
    if n == 0 then [] else OutlivedAll(xs, n - 1) + Outlived(xs[n - 1])
  }

  lemma SessionHasStates(x: Session)
    requires IsSession(x)
    ensures x.states != [] && Final(x) == x.states[|x.events|]
  {
    hide Step, Opened, Stopped, HarmlessForTables;
  }

  /** What is read after the stop of one session. */
  lemma OneStop(x: Session, r: Db, user: UserKey)
    requires IsSession(x) && x.states != [] && Inv(r) && All(r) == RecoveredEntries(Final(x), x.kept)
    ensures View(All(r), user, r.lastSequence)
         == ValueAfter(Outlived(x), |Outlived(x)|, user, View(All(First(x).db), user, First(x).db.lastSequence))
  {
    hide Run, Stopped, View, All, Inv, ValueAfter, RecoveredEntries, HarmlessForTables, AllWritten, Durability.Before,
         After, End;
    AfterStop(x.states, x.events, |x.events|, x.kept, r, user);
  }

  /**
   Over any number of sessions, each stopped at any moment and leaving any part of its logs beyond what was
   synced: the database opened after them reads as the first one with the operations of each session that
   outlived its stop performed in turn.
   */
  lemma {:induction false} ManyStops(xs: seq<Session>, n: nat, r: Db, user: UserKey)
    requires Chain(xs) && 0 < n <= |xs| && forall i :: 0 <= i < |xs| ==> xs[i].states != []
    requires Inv(r) && All(r) == RecoveredEntries(Final(xs[n - 1]), xs[n - 1].kept)
    ensures var ops := OutlivedAll(xs, n);
            View(All(r), user, r.lastSequence)
            == ValueAfter(ops, |ops|, user, View(All(First(xs[0]).db), user, First(xs[0]).db.lastSequence))
  {
    hide IsSession, View, All, Inv, ValueAfter, RecoveredEntries, Outlived;
    var x := xs[n - 1];
    OneStop(x, r, user);
    var before := OutlivedAll(xs, n - 1);
    var v := View(All(First(xs[0]).db), user, First(xs[0]).db.lastSequence);
    if n > 1 {
      OpenedIsValid(First(x));
      ManyStops(xs, n - 1, First(x).db, user);
    } else {
      NothingDone(user, v);
    }
    ValueAfterConcat(before, Outlived(x), |Outlived(x)|, user, v);
  }

  lemma OpenedIsValid(t: State)
    requires Opened(t)
    ensures Inv(t.db)
  {
  }

  lemma NothingDone(user: UserKey, v: Option<seq<Byte>>)
    ensures ValueAfter([], 0, user, v) == v
  {
  }

  // ---- synced batches ------------------------------------------------------------------------------------

  predicate StretchAt(part: seq<Op>, all: seq<Op>, i: nat) {
    i + |part| <= |all| && part == all[i..i + |part|]
  }

  ghost predicate IsStretch(part: seq<Op>, all: seq<Op>) {
    exists i: nat :: StretchAt(part, all, i)
  }

  lemma StretchIs(part: seq<Op>, all: seq<Op>, i: nat)
    requires StretchAt(part, all, i)
    ensures IsStretch(part, all)
  {
  }

  lemma StretchOfConcat(part: seq<Op>, a: seq<Op>, b: seq<Op>)
    requires IsStretch(part, a) || IsStretch(part, b)
    ensures IsStretch(part, a + b)
  {
    if IsStretch(part, a) {
      var i: nat :| StretchAt(part, a, i);
      assert (a + b)[i..i + |part|] == a[i..i + |part|];
      StretchIs(part, a + b, i);
    } else {
      var i: nat :| StretchAt(part, b, i);
      assert (a + b)[|a| + i..|a| + i + |part|] == b[i..i + |part|];
      StretchIs(part, a + b, |a| + i);
    }
  }

  /** A batch that was acknowledged to a sync writer outlives the stop of its session, whole. */
  lemma SyncedBatchOutlives(x: Session, a: Ack)
    requires IsSession(x) && x.states != [] && a in Final(x).acked && IsSyncWrite(a)
    ensures IsStretch(BatchOps(a.writer), Outlived(x))
  {
    hide Run, Stopped, HarmlessForTables, LogInv, HistoryInv, QInv, SyncInv, AckedOps, BatchOps, KeptOld, KeptNew,
         InKeptOld, InKeptNew, AllWritten, IsStretch, Durability.Before, After, End;
    var s, kept := Final(x), x.kept;
    SessionHasStates(x);
    SyncIsHonoured(x.states, x.events, |x.events|, kept, a);
    RunKeepsHistory(x.states, x.events, |x.events|);
    KeptIsHistory(s, kept);
    AckedIsWithin(s, a);
    var early, late := AllWritten(s)[..Durability.Before(s, kept)], AllWritten(s)[After(s)..End(s, kept)];
    if InKeptNew(s, kept, a) {
      NewIsLate(s, kept, a);
    } else if InKeptOld(s, kept, a) {
      OldIsEarly(s, kept, a);
    } else {
      TablesAreEarly(s, kept, a);
    }
    StretchOfConcat(BatchOps(a.writer), early, late);
  }

  lemma NewIsLate(s: State, kept: map<nat, seq<LogRecord>>, a: Ack)
    requires 0 <= After(s) <= End(s, kept) <= |AllWritten(s)|
               && KeptNew(s, kept) == AllWritten(s)[After(s)..End(s, kept)]
    requires 0 < a.first && InKeptNew(s, kept, a)
    ensures IsStretch(BatchOps(a.writer), AllWritten(s)[After(s)..End(s, kept)])
  {
    hide BatchOps, KeptNew, AllWritten, IsStretch;
    StretchIs(BatchOps(a.writer), KeptNew(s, kept), a.first - 1 - s.memBase);
  }

  lemma OldIsEarly(s: State, kept: map<nat, seq<LogRecord>>, a: Ack)
    requires 0 <= Base(s) - s.origin <= Durability.Before(s, kept) <= |AllWritten(s)|
    requires KeptOld(s, kept) == AllWritten(s)[Base(s) - s.origin..Durability.Before(s, kept)]
    requires 0 < a.first && InKeptOld(s, kept, a)
    ensures IsStretch(BatchOps(a.writer), AllWritten(s)[..Durability.Before(s, kept)])
  {
    hide BatchOps, KeptOld, AllWritten, IsStretch;
    var early, b := AllWritten(s)[..Durability.Before(s, kept)], Base(s) - s.origin;
    StretchIs(BatchOps(a.writer), KeptOld(s, kept), a.first - 1 - s.immBase);
    assert early[b..] == KeptOld(s, kept);
    assert early == early[..b] + early[b..];
    StretchOfConcat(BatchOps(a.writer), early[..b], early[b..]);
  }

  lemma TablesAreEarly(s: State, kept: map<nat, seq<LogRecord>>, a: Ack)
    requires QInv(s) && a in s.acked && s.origin < a.first && Last(a) <= s.db.lastSequence && Last(a) <= Base(s)
    requires 0 <= Base(s) - s.origin <= Durability.Before(s, kept) <= |AllWritten(s)|
    ensures IsStretch(BatchOps(a.writer), AllWritten(s)[..Durability.Before(s, kept)])
  {
    hide QInv, BatchOps, AllWritten, IsStretch, Durability.Before;
    BatchInAll(s, a);
    var all, n := AllWritten(s), Durability.Before(s, kept);
    InPrefixOf(all, n, a.first - 1 - s.origin, Last(a) - s.origin);
    assert |BatchOps(a.writer)| == Last(a) - (a.first - 1);
    StretchIs(BatchOps(a.writer), all[..n], a.first - 1 - s.origin);
  }

  lemma InPrefixOf(all: seq<Op>, n: int, first: int, last: int)
    requires 0 <= first <= last <= n <= |all|
    ensures all[..n][first..last] == all[first..last]
  {
    assert all == all[..n] + all[n..];
    InPrefix(all[..n], all[n..], first, last);
  }

  lemma AckedIsWithin(s: State, a: Ack)
    requires QInv(s) && SyncInv(s) && a in s.acked
    ensures 0 < a.first && s.origin < a.first && Last(a) <= s.db.lastSequence
  {
    hide QInv;
    assert InOneLog(s, a);
  }

  /** ... and the stops of all later sessions. */
  lemma {:induction false} SyncedOutlivesAll(xs: seq<Session>, n: nat, i: nat, a: Ack)
    requires Chain(xs) && i < n <= |xs| && forall j :: 0 <= j < |xs| ==> xs[j].states != []
    requires a in Final(xs[i]).acked && IsSyncWrite(a)
    ensures IsStretch(BatchOps(a.writer), OutlivedAll(xs, n))
  {
    hide IsSession, Reopens, IsStretch, Outlived, BatchOps, IsSyncWrite;
    if i < n - 1 {
      SyncedOutlivesAll(xs, n - 1, i, a);
    } else {
      SyncedBatchOutlives(xs[i], a);
    }
    StretchOfConcat(BatchOps(a.writer), OutlivedAll(xs, n - 1), Outlived(xs[n - 1]));
  }
}
