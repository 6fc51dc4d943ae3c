/**
 SkipList (db/skiplist.h): one inserter and any number of readers, interleaved at every single load and store
 of a link or of max_height_.
 */
module SkipList {
  import opened Options

  const MAX_HEIGHT: nat := 12

  /** Keys are unique; a node is named by its key.  head_ comes before every key. */
  type Key = real

  datatype Node = Head | At(key: Key)

  predicate Less(x: Node, k: Key) {
    x.Head? || x.key < k
  }

  /** KeyIsAfterNode: a null node is considered infinite. */
  predicate KeyIsAfterNode(k: Key, n: Option<Key>) {
    n.Some? && n.value < k
  }

  /** Where the inserter is. */
  datatype Writer =
    | Idle
    | Search(key: Key, x: Node, level: nat, prev: map<nat, Node>)     // FindGreaterOrEqual(key, prev)
    | Searched(key: Key, prev: map<nat, Node>)
    | Link(key: Key, height: nat, prev: map<nat, Node>, level: nat, stored: bool)

  /** Where a reader is: FindGreaterOrEqual, FindLessThan, FindLast, or returned. */
  datatype Reader =
    | SeekGe(target: Key, x: Node, level: nat)
    | SeekLt(target: Key, x: Node, level: nat)
    | SeekLast(x: Node, level: nat)
    | GotGe(target: Key, found: Option<Key>)
    | GotLt(target: Key, last: Node)
    | GotLast(last: Node)

  /** Memory, the threads, and (ghost in effect) which keys are linked at which level. */
  datatype State = State(next: map<(Node, nat), Option<Key>>, maxHeight: nat, writer: Writer,
                         readers: map<nat, Reader>, linked: seq<set<Key>>)

  // ---- the invariant -----------------------------------------------------------------------------------

  ghost predicate InList(s: set<Key>, x: Node) {
    x.Head? || x.key in s
  }

  /** `r` is the successor of `x` in `s`. */
  ghost predicate IsSucc(s: set<Key>, x: Node, r: Option<Key>) {
    && (r.Some? ==> r.value in s && Less(x, r.value))
    && forall y :: y in s && Less(x, y) ==> r.Some? && r.value <= y
  }

  /** `x` is the predecessor of the key `k`, which is not in `s`. */
  ghost predicate IsPrev(s: set<Key>, k: Key, x: Node) {
    && InList(s, x) && Less(x, k)
    && forall y :: y in s && Less(x, y) ==> k < y
  }

  /** At every level each node links to its successor at that level, and levels are nested. */
  ghost predicate ListsAreGood(s: State) {
    && |s.linked| == MAX_HEIGHT
    && 1 <= s.maxHeight <= MAX_HEIGHT
    && (forall l :: 0 <= l < MAX_HEIGHT - 1 ==> s.linked[l + 1] <= s.linked[l])
    && (forall l :: s.maxHeight <= l < MAX_HEIGHT ==> s.linked[l] == {})
    && (forall l, x :: 0 <= l < MAX_HEIGHT && InList(s.linked[l], x) ==>
          (x, l) in s.next && IsSucc(s.linked[l], x, s.next[(x, l)]))
  }

  ghost predicate PrevsAreGood(s: State, key: Key, prev: map<nat, Node>, lo: nat, hi: nat)
    requires |s.linked| == MAX_HEIGHT
  {
    hi <= MAX_HEIGHT && forall l :: lo <= l < hi ==> l in prev && IsPrev(s.linked[l], key, prev[l])
  }

  ghost predicate WriterIsGood(s: State)
    requires |s.linked| == MAX_HEIGHT
  {
    match s.writer
    case Idle => true
    case Search(key, x, level, prev) =>
      && key !in s.linked[0]
      && level < s.maxHeight <= MAX_HEIGHT && InList(s.linked[level], x) && Less(x, key)
      && PrevsAreGood(s, key, prev, level + 1, s.maxHeight)
    case Searched(key, prev) =>
      key !in s.linked[0] && PrevsAreGood(s, key, prev, 0, s.maxHeight)
    case Link(key, height, prev, level, stored) =>
      && level < height <= s.maxHeight <= MAX_HEIGHT
      && (forall l :: 0 <= l < level ==> key in s.linked[l])
      && (forall l :: level <= l < MAX_HEIGHT ==> key !in s.linked[l])
      && PrevsAreGood(s, key, prev, level, height)
      && (stored ==> (At(key), level) in s.next && (prev[level], level) in s.next
                     && s.next[(At(key), level)] == s.next[(prev[level], level)])
  }

  /** A reader stands on a node linked at its level, before its target. */
  ghost predicate ReaderIsGood(s: State, r: Reader)
    requires |s.linked| == MAX_HEIGHT
  {
    match r
    case SeekGe(target, x, level) => level < MAX_HEIGHT && InList(s.linked[level], x) && Less(x, target)
    case SeekLt(target, x, level) => level < MAX_HEIGHT && InList(s.linked[level], x) && Less(x, target)
    case SeekLast(x, level) => level < MAX_HEIGHT && InList(s.linked[level], x)
    case _ => true
  }

  ghost predicate Inv(s: State) {
    && ListsAreGood(s) && WriterIsGood(s)
    && forall r :: r in s.readers ==> ReaderIsGood(s, s.readers[r])
  }

  // ---- the steps ----------------------------------------------------------------------------------------

  datatype Step =
    | StartInsert(key: Key)
    | SearchStep
    | ChooseHeight(height: nat)
    | StoreOwnLink
    | Publish
    | StartGe(id: nat, target: Key, seen: nat)
    | StartLt(id: nat, target: Key, seen: nat)
    | StartLast(id: nat, seen: nat)
    | Read(id: nat)

  /** The empty list: head_ links to nothing, max_height_ is 1. */
  ghost predicate Init(s: State) {
    && s.linked == seq(MAX_HEIGHT, _ => {})
    && s.maxHeight == 1 && s.writer == Idle && s.readers == map[]
    && forall l :: 0 <= l < MAX_HEIGHT ==> (Head, l) in s.next && s.next[(Head, l)] == None
  }

  /**
   Insert requires that no equal key is in the list; a height is between 1 and kMaxHeight.  A reader may see
   any earlier value of max_height_, so it may start at any level below the current one.
   */
  ghost predicate Enabled(s: State, a: Step) {
    match a
    case StartInsert(key) => s.writer.Idle? && |s.linked| > 0 && key !in s.linked[0]
    case SearchStep => s.writer.Search?
    case ChooseHeight(height) => s.writer.Searched? && 1 <= height <= MAX_HEIGHT
    case StoreOwnLink => s.writer.Link? && !s.writer.stored
    case Publish => s.writer.Link? && s.writer.stored
    case StartGe(_, _, seen) => 1 <= seen <= s.maxHeight
    case StartLt(_, _, seen) => 1 <= seen <= s.maxHeight
    case StartLast(_, seen) => 1 <= seen <= s.maxHeight
    case Read(id) => id in s.readers && (s.readers[id].SeekGe? || s.readers[id].SeekLt? || s.readers[id].SeekLast?)
  }

  /** One load by a reader, as in FindGreaterOrEqual, FindLessThan and FindLast. */
  function AfterRead(r: Reader, next: Option<Key>): Reader {
    match r
    case SeekGe(target, x, level) =>
      if KeyIsAfterNode(target, next) then SeekGe(target, At(next.value), level)
      else if level == 0 then GotGe(target, next)
      else SeekGe(target, x, level - 1)
    case SeekLt(target, x, level) =>
      if next.None? || next.value >= target then
        if level == 0 then GotLt(target, x) else SeekLt(target, x, level - 1)
      else SeekLt(target, At(next.value), level)
    case SeekLast(x, level) =>
      if next.None? then
        if level == 0 then GotLast(x) else SeekLast(x, level - 1)
      else SeekLast(At(next.value), level)
    case _ => r
  }

  /** The link a reader loads next. */
  function LinkOf(r: Reader): (Node, nat)
    requires r.SeekGe? || r.SeekLt? || r.SeekLast?
  {
    (r.x, r.level)
  }

  /** prev[i] = head_ for the levels a tall node adds. */
  function Raised(prev: map<nat, Node>, lo: nat, hi: nat): map<nat, Node>
    decreases hi - lo
  {
    if lo >= hi then prev else Raised(prev[lo := Head], lo + 1, hi)
  }

  ghost function Apply(s: State, a: Step): State
    requires Inv(s) && Enabled(s, a)
  {
    match a
    case StartInsert(key) => s.(writer := Search(key, Head, s.maxHeight - 1, map[]))
    case SearchStep =>
      var w := s.writer;
      var next := s.next[(w.x, w.level)];
      if KeyIsAfterNode(w.key, next) then s.(writer := Search(w.key, At(next.value), w.level, w.prev))
      else if w.level == 0 then s.(writer := Searched(w.key, w.prev[0 := w.x]))
      else s.(writer := Search(w.key, w.x, w.level - 1, w.prev[w.level := w.x]))
    case ChooseHeight(height) =>
      var w := s.writer;
      s.(writer := Link(w.key, height, Raised(w.prev, s.maxHeight, height), 0, false),
         maxHeight := if height > s.maxHeight then height else s.maxHeight)
    case StoreOwnLink =>
      var w := s.writer;
      s.(next := s.next[(At(w.key), w.level) := s.next[(w.prev[w.level], w.level)]],
         writer := Link(w.key, w.height, w.prev, w.level, true))
    case Publish =>
      var w := s.writer;
      s.(next := s.next[(w.prev[w.level], w.level) := Some(w.key)],
         linked := s.linked[w.level := s.linked[w.level] + {w.key}],
         writer := if w.level + 1 == w.height then Idle else Link(w.key, w.height, w.prev, w.level + 1, false))
    case StartGe(id, target, seen) => s.(readers := s.readers[id := SeekGe(target, Head, seen - 1)])
    case StartLt(id, target, seen) => s.(readers := s.readers[id := SeekLt(target, Head, seen - 1)])
    case StartLast(id, seen) => s.(readers := s.readers[id := SeekLast(Head, seen - 1)])
    case Read(id) =>
      var r := s.readers[id];
      s.(readers := s.readers[id := AfterRead(r, s.next[LinkOf(r)])])
  }

  // ---- every step keeps the invariant ----------------------------------------------------------------------

  lemma {:induction false} RaisedIs(prev: map<nat, Node>, lo: nat, hi: nat)
    ensures forall l: nat :: l in Raised(prev, lo, hi) <==> l in prev || lo <= l < hi
    ensures forall l: nat :: l in Raised(prev, lo, hi) ==>
              Raised(prev, lo, hi)[l] == if lo <= l < hi then Head else prev[l]
    decreases hi - lo
  {
    if lo < hi {
      RaisedIs(prev[lo := Head], lo + 1, hi);
    }
  }

  lemma SearchKeepsInv(s: State)
    requires Inv(s) && s.writer.Search?
    ensures Inv(Apply(s, SearchStep))
  {
    var w := s.writer;
    assert IsSucc(s.linked[w.level], w.x, s.next[(w.x, w.level)]);
    assert w.level > 0 ==> s.linked[w.level] <= s.linked[w.level - 1];
    NestedLevels(s, w.level);
  }

  lemma {:induction false} NestedLevels(s: State, l: nat)
    requires ListsAreGood(s) && l < MAX_HEIGHT
    ensures s.linked[l] <= s.linked[0]
  {
    if l > 0 {
      NestedLevels(s, l - 1);
      assert s.linked[l - 1 + 1] <= s.linked[l - 1];
    }
  }

  lemma ChooseKeepsInv(s: State, height: nat)
    requires Inv(s) && Enabled(s, ChooseHeight(height))
    ensures Inv(Apply(s, ChooseHeight(height)))
  {
    var w := s.writer;
    RaisedIs(w.prev, s.maxHeight, height);
    forall l | 0 <= l < MAX_HEIGHT
      ensures w.key !in s.linked[l]
    {
      NestedLevels(s, l);
    }
  }

  lemma StoreKeepsInv(s: State)
    requires Inv(s) && Enabled(s, StoreOwnLink)
    ensures Inv(Apply(s, StoreOwnLink))
  {
    var w := s.writer;
    assert IsPrev(s.linked[w.level], w.key, w.prev[w.level]);
    assert (w.prev[w.level], w.level) in s.next;
  }

  /** Linking `k` after its predecessor makes every link a successor link again. */
  lemma LinkedIn(list: set<Key>, k: Key, prev: Node, x: Node, r: Option<Key>, old_: Option<Key>)
    requires k !in list && IsPrev(list, k, prev)
    requires InList(list + {k}, x)
    requires IsSucc(list, prev, old_)
    requires x == prev ==> r == Some(k)
    requires x == At(k) ==> r == old_
    requires x != prev && x != At(k) ==> IsSucc(list, x, r)
    ensures IsSucc(list + {k}, x, r)
  {
  }

  lemma PublishKeepsLists(s: State)
    requires Inv(s) && Enabled(s, Publish)
    ensures ListsAreGood(Apply(s, Publish))
  {
    var w, s' := s.writer, Apply(s, Publish);
    var l0, prev := w.level, w.prev[w.level];
    assert IsPrev(s.linked[l0], w.key, prev);
    forall l, x | 0 <= l < MAX_HEIGHT && InList(s'.linked[l], x)
      ensures (x, l) in s'.next && IsSucc(s'.linked[l], x, s'.next[(x, l)])
    {
      if l == l0 {
        LinkedIn(s.linked[l], w.key, prev, x, s'.next[(x, l)], s.next[(prev, l)]);
      }
    }
  }

  lemma PublishKeepsInv(s: State)
    requires Inv(s) && Enabled(s, Publish)
    ensures Inv(Apply(s, Publish))
  {
    PublishKeepsLists(s);
    hide ListsAreGood;
    var s' := Apply(s, Publish);
    forall r | r in s'.readers
      ensures ReaderIsGood(s', s'.readers[r])
    {
      assert ReaderIsGood(s, s.readers[r]);
    }
  }

  lemma ReadKeepsInv(s: State, id: nat)
    requires Inv(s) && Enabled(s, Read(id))
    ensures Inv(Apply(s, Read(id)))
  {
    hide ListsAreGood, WriterIsGood, ReaderIsGood, AfterRead;
    var s' := Apply(s, Read(id));
    ListsHaveLevels(s);
    SameLists(s, s');
    assert ReaderIsGood(s, s.readers[id]);
    LoadKeepsReader(s, s.readers[id]);
  }

  /** Moving a reader changes nothing for the lists, the writer and the other readers. */
  lemma SameLists(s: State, s': State)
    requires |s.linked| == MAX_HEIGHT && s' == s.(readers := s'.readers)
    ensures ListsAreGood(s') == ListsAreGood(s) && WriterIsGood(s') == WriterIsGood(s)
    ensures forall r :: ReaderIsGood(s', r) == ReaderIsGood(s, r)
  {
  }

  lemma ListsHaveLevels(s: State)
    requires ListsAreGood(s)
    ensures |s.linked| == MAX_HEIGHT
  {
  }

  lemma LoadKeepsReader(s: State, r: Reader)
    requires ListsAreGood(s) && ReaderIsGood(s, r) && (r.SeekGe? || r.SeekLt? || r.SeekLast?)
    ensures LinkOf(r) in s.next && ReaderIsGood(s, AfterRead(r, s.next[LinkOf(r)]))
  {
    assert IsSucc(s.linked[r.level], r.x, s.next[LinkOf(r)]);
    assert r.level > 0 ==> s.linked[r.level - 1 + 1] <= s.linked[r.level - 1];
  }

  /** The invariant is kept at every interleaving of single loads and stores. */
  lemma StepKeepsInv(s: State, a: Step)
    requires Inv(s) && Enabled(s, a)
    ensures Inv(Apply(s, a))
  {
    match a
    case StartInsert(key) =>
    case SearchStep => SearchKeepsInv(s);
    case ChooseHeight(height) => ChooseKeepsInv(s, height);
    case StoreOwnLink => StoreKeepsInv(s);
    case Publish => PublishKeepsInv(s);
    case StartGe(id, target, seen) =>
    case StartLt(id, target, seen) =>
    case StartLast(id, seen) =>
    case Read(id) => ReadKeepsInv(s, id);
  }

  lemma InitHasInv(s: State)
    requires Init(s)
    ensures Inv(s)
  {
  }

  // ---- what readers return ---------------------------------------------------------------------------------

  ghost predicate LeastFrom(s: set<Key>, target: Key, r: Option<Key>) {
    && (r.Some? ==> r.value in s && target <= r.value)
    && forall y :: y in s && target <= y ==> r.Some? && r.value <= y
  }

  ghost predicate GreatestBelow(s: set<Key>, target: Key, x: Node) {
    && InList(s, x) && Less(x, target)
    && forall y :: y in s && y < target ==> x.At? && y <= x.key
  }

  ghost predicate Greatest(s: set<Key>, x: Node) {
    && InList(s, x)
    && forall y :: y in s ==> x.At? && y <= x.key
  }

  /** The value a reader returns is exact for the set of keys linked at level 0 in the state it reads. */
  ghost predicate ResultHolds(s: set<Key>, r: Reader) {
    match r
    case GotGe(target, found) => LeastFrom(s, target, found)
    case GotLt(target, last) => GreatestBelow(s, target, last)
    case GotLast(last) => Greatest(s, last)
    case _ => true
  }

  lemma LastReadIsExact(s: State, id: nat)
    requires Inv(s) && Enabled(s, Read(id))
    ensures ResultHolds(s.linked[0], Apply(s, Read(id)).readers[id])
  {
    var r := s.readers[id];
    assert ReaderIsGood(s, r);
    assert IsSucc(s.linked[r.level], r.x, s.next[LinkOf(r)]);
  }

  // ---- runs ------------------------------------------------------------------------------------------------------

  ghost predicate Execution(states: seq<State>, steps: seq<Step>) {
    && |states| == |steps| + 1
    && Init(states[0])
    && forall i :: 0 <= i < |steps| ==> Follows(states[i], steps[i], states[i + 1])
  }

  ghost predicate Follows(s: State, a: Step, s': State) {
    Inv(s) ==> Enabled(s, a) && s' == Apply(s, a)
  }

  lemma {:induction false} ExecutionKeepsInv(states: seq<State>, steps: seq<Step>, n: nat)
    requires Execution(states, steps) && n <= |steps|
    ensures Inv(states[n])
  {
    if n == 0 {
      InitHasInv(states[0]);
    } else {
      ExecutionKeepsInv(states, steps, n - 1);
      assert Follows(states[n - 1], steps[n - 1], states[n]);
      StepKeepsInv(states[n - 1], steps[n - 1]);
    }
  }

  /** Keys are never unlinked. */
  lemma {:induction false} LinkedGrows(states: seq<State>, steps: seq<Step>, m: nat, n: nat)
    requires Execution(states, steps) && m <= n <= |steps|
    ensures |states[m].linked| == |states[n].linked| == MAX_HEIGHT
    ensures states[m].linked[0] <= states[n].linked[0]
    decreases n
  {
    ExecutionKeepsInv(states, steps, n);
    if m < n {
      LinkedGrows(states, steps, m, n - 1);
      ExecutionKeepsInv(states, steps, n - 1);
      assert Follows(states[n - 1], steps[n - 1], states[n]);
    }
  }

  predicate StartsRead(a: Step, id: nat) {
    (a.StartGe? || a.StartLt? || a.StartLast?) && a.id == id
  }

  predicate Returned(r: Reader) {
    r.GotGe? || r.GotLt? || r.GotLast?
  }

  /** A reader that has returned did its last load at a moment when its result was exact. */
  lemma {:induction false} ReadsAreLinearizable(states: seq<State>, steps: seq<Step>, begin: nat, end: nat, id: nat)
    returns (when: nat)
    requires Execution(states, steps) && begin < end <= |steps|
    requires StartsRead(steps[begin], id) && forall i :: begin < i < end ==> !StartsRead(steps[i], id)
    requires id in states[end].readers && Returned(states[end].readers[id])
    ensures begin <= when < end && |states[when].linked| == MAX_HEIGHT
    ensures ResultHolds(states[when].linked[0], states[end].readers[id])
    decreases end
  {
    var n := end - 1;
    ExecutionKeepsInv(states, steps, n);
    assert Follows(states[n], steps[n], states[end]);
    if steps[n] == Read(id) {
      LastReadIsExact(states[n], id);
      when := n;
    } else {
      assert begin < n;
      when := ReadsAreLinearizable(states, steps, begin, n, id);
    }
  }

  /**
   A seek that starts after a key was linked finds that key or a smaller one at or after its target, and what it
   finds is linked: however the reads and the inserter's stores interleave.
   */
  lemma SeekFindsInserted(states: seq<State>, steps: seq<Step>, begin: nat, end: nat, id: nat, key: Key)
    requires Execution(states, steps) && begin < end <= |steps|
    requires steps[begin].StartGe? && steps[begin].id == id
    requires forall i :: begin < i < end ==> !StartsRead(steps[i], id)
    requires id in states[end].readers && states[end].readers[id].GotGe?
    ensures |states[begin].linked| == |states[end].linked| == MAX_HEIGHT
    ensures var r := states[end].readers[id];
      && (r.found.Some? ==> r.found.value in states[end].linked[0] && r.target <= r.found.value)
      && (key in states[begin].linked[0] && r.target <= key ==> r.found.Some? && r.found.value <= key)
  {
    var when := ReadsAreLinearizable(states, steps, begin, end, id);
    LinkedGrows(states, steps, begin, when);
    LinkedGrows(states, steps, when, end);
  }

  /** An insert that has finished has linked its key at level 0 (and at every level below its height). */
  lemma InsertLinks(s: State)
    requires Inv(s) && Enabled(s, Publish) && Apply(s, Publish).writer.Idle?
    ensures forall l :: 0 <= l < s.writer.height ==> s.writer.key in Apply(s, Publish).linked[l]
  {
  }

  /** Each load moves a reader down a level or strictly forward on its level. */
  lemma ReadMakesProgress(s: State, id: nat)
    requires Inv(s) && Enabled(s, Read(id))
    ensures var r, r' := s.readers[id], Apply(s, Read(id)).readers[id];
      Returned(r') || r'.level < r.level || (r'.level == r.level && r'.x.At? && Less(r.x, r'.x.key))
  {
    var r := s.readers[id];
    assert ReaderIsGood(s, r);
    assert IsSucc(s.linked[r.level], r.x, s.next[LinkOf(r)]);
  }
}
