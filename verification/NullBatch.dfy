/**
 What becomes of a null batch (DBImpl::Write with no updates, db/db_impl.cc), with which a caller asks for the
 memtable to be compacted: at the front of the queue it forces a memtable switch, but a group that it can join
 takes it along, and then it is acknowledged without one.
 */
module NullBatch {
  import opened Options
  import opened Lsm
  import opened Runs
  import opened WriteQueue
  import opened GroupCommit

  /** When `k` writers have been acknowledged the next one stands at the front, if there is one. */
  predicate FrontIs(s: State, k: nat) {
    |s.acked| == k && s.writers != []
  }

  /** The k-th writer stood at the front by the n-th event: no group before it took it along. */
  ghost predicate ReachedFront(states: seq<State>, n: nat, k: nat) {
    exists m: nat :: m <= n && m < |states| && FrontIs(states[m], k)
  }

  predicate SwitchesFor(states: seq<State>, events: seq<Event>, m: nat, k: nat)
  {
    m < |states| && m < |events| && events[m].Switch? && FrontIs(states[m], k)
  }

  /** The k-th writer started a memtable before the n-th event. */
  ghost predicate HasSwitched(states: seq<State>, events: seq<Event>, n: nat, k: nat) {
    exists m: nat :: m < n && SwitchesFor(states, events, m, k)
  }

  lemma StepGrows(s: State, e: Event, s': State)
    requires Step(s, e, s')
    ensures |s.acked| <= |s'.acked|
    ensures |s.acked| < |s'.acked| ==> s.writers != [] && (e.Finish? || e.Skip?)
    ensures e.Skip? ==> |s'.acked| == |s.acked| + 1 && s.switched
    ensures e.Switch? ==> s.writers != []
    ensures s'.switched && s.switched ==> |s'.acked| == |s.acked|
    ensures s'.switched && !s.switched ==> e.Switch?
  {
    hide Inserted, Applied, IsGroup, GroupOps, Next, Acks;
  }

  lemma {:induction false} AckedGrow(states: seq<State>, events: seq<Event>, m: nat, n: nat)
    requires Run(states, events) && m <= n <= |events|
    ensures |states[m].acked| <= |states[n].acked|
  {
    hide Step, Opened;
    if m < n {
      AckedGrow(states, events, m, n - 1);
      assert Step(states[n - 1], events[n - 1], states[n - 1 + 1]);
      StepGrows(states[n - 1], events[n - 1], states[n]);
    }
  }

  /** `switched` speaks of the writer at the front. */
  lemma {:induction false} SwitchedIsOwn(states: seq<State>, events: seq<Event>, n: nat)
    requires Run(states, events) && n <= |events| && states[n].switched
    ensures HasSwitched(states, events, n, |states[n].acked|)
  {
    hide Step, Opened;
    if n == 0 {
      NothingSwitched(states[0]);
    } else {
      assert Step(states[n - 1], events[n - 1], states[n - 1 + 1]);
      StepGrows(states[n - 1], events[n - 1], states[n]);
      if states[n - 1].switched {
        SwitchedIsOwn(states, events, n - 1);
      } else {
        SwitchAcksNobody(states[n - 1], states[n]);
        assert SwitchesFor(states, events, n - 1, |states[n].acked|);
      }
    }
  }

  lemma NothingSwitched(s: State)
    requires Opened(s)
    ensures !s.switched && s.phase.Waiting?
  {
    hide Inv;
  }

  lemma SwitchAcksNobody(s: State, s': State)
    requires Step(s, Switch, s')
    ensures s'.acked == s.acked
  {
    hide Next;
  }

  /** Only a writer with a batch leads a group. */
  lemma StepLeads(s: State, e: Event, s': State)
    requires Step(s, e, s') && (s.phase.Writing? ==> s.writers != [] && s.writers[0].batch.Some?)
    ensures s'.phase.Writing? ==> s'.writers != [] && s'.writers[0].batch.Some?
  {
    hide Inserted, Applied, IsGroup, GroupOps, Next, Acks;
  }

  lemma {:induction false} LeaderHasBatch(states: seq<State>, events: seq<Event>, n: nat)
    requires Run(states, events) && n <= |events|
    ensures states[n].phase.Writing? ==> states[n].writers != [] && states[n].writers[0].batch.Some?
  {
    hide Step, Opened;
    if n == 0 {
      NothingSwitched(states[0]);
    } else {
      LeaderHasBatch(states, events, n - 1);
      assert Step(states[n - 1], events[n - 1], states[n - 1 + 1]);
      StepLeads(states[n - 1], events[n - 1], states[n]);
    }
  }

  /** Whoever is acknowledged while the front is acknowledged was in the queue. */
  lemma FrontIsAcked(s: State, e: Event, s': State)
    requires QInv(s) && QInv(s') && Step(s, e, s') && |s.acked| < |s'.acked| && s.writers != []
    ensures s'.acked[|s.acked|].writer == s.writers[0]
  {
    hide Inv, PhaseInv, LogInv, ManifestInv, AckedOps, GroupOps, Applied, IsGroup, Next, Inserted;
    var k := |s.acked|;
    assert s'.arrived[k] == s'.acked[k].writer;
    assert s.arrived[k] == s.writers[0];
    assert s'.arrived[..|s.arrived|] == s.arrived;
  }

  /**
   A null batch is acknowledged after a memtable switch of its own exactly when it reached the front of the
   queue, and then it is not part of any group.
   */
  lemma NullBatchSwitchesIff(states: seq<State>, events: seq<Event>, n: nat, k: nat)
    requires Run(states, events) && n < |events|
    requires |states[n].acked| <= k < |states[n + 1].acked| && states[n + 1].acked[k].writer.batch.None?
    ensures HasSwitched(states, events, n, k) <==> ReachedFront(states, n, k)
    ensures ReachedFront(states, n, k) <==> events[n].Skip?
  {
    hide Step, Opened, QInv;
    var s, e, s' := states[n], events[n], states[n + 1];
    StepGrows(s, e, s');
    if HasSwitched(states, events, n, k) {
      var m: nat :| m < n && SwitchesFor(states, events, m, k);
      assert FrontIs(states[m], k);
    }
    if ReachedFront(states, n, k) {
      var m: nat :| m <= n && m < |states| && FrontIs(states[m], k);
      AckedGrow(states, events, m, n);
      RunKeepsQInv(states, events, n);
      RunKeepsQInv(states, events, n + 1);
      FrontIsAcked(s, e, s');
      LeaderHasBatch(states, events, n);
      if e.Finish? {
        FinishIsWriting(s, s');
      }
      assert e.Skip?;
    }
    if e.Skip? {
      assert FrontIs(states[n], k);
      SwitchedIsOwn(states, events, n);
    }
  }
}
