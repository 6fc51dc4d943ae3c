/**
 The cache's own hash table (HandleTable, util/cache.cc): chains of entries, one chain a bucket, and as
 many buckets as keep the chains short.
 */
module HandleTable {
  import opened Options
  import opened Keys

  type Bytes = seq<Byte>

  /** An entry in a chain: which handle it is, with its key and hash. */
  datatype Node = Node(id: nat, key: Bytes, hash: nat)

  /** FindPointer on one chain: where the entry with this key and hash is, or the end. */
  function Find(chain: seq<Node>, key: Bytes, hash: nat): (i: nat)
    ensures i <= |chain|
    ensures i < |chain| ==> chain[i].key == key && chain[i].hash == hash
    ensures forall j :: 0 <= j < i ==> !(chain[j].key == key && chain[j].hash == hash)
  {
    if chain == [] || (chain[0].hash == hash && chain[0].key == key) then 0 else
      var i := Find(chain[1..], key, hash);
      assert forall j :: 0 < j < i + 1 ==> chain[j] == chain[1..][j - 1];
      i + 1
  }

  /** No two nodes have the same key and hash. */
  ghost predicate Unique(nodes: set<Node>) {
    forall m, n :: m in nodes && n in nodes && m.key == n.key && m.hash == n.hash ==> m == n
  }

  /** The entry with this key and hash. */
  ghost predicate IsEntry(nodes: set<Node>, key: Bytes, hash: nat, r: Option<Node>) {
    if r.Some? then r.value in nodes && r.value.key == key && r.value.hash == hash
    else forall n :: n in nodes ==> !(n.key == key && n.hash == hash)
  }

  ghost predicate InBucket(list: seq<seq<Node>>, b: nat, n: Node) {
    b < |list| && n in list[b]
  }

  ghost function NodesOf(list: seq<seq<Node>>): set<Node> {
    set b: nat, n | b < |list| && n in list[b] :: n
  }

  ghost predicate NoRepeats(chain: seq<Node>) {
    forall i, j :: 0 <= i < j < |chain| ==> chain[i] != chain[j]
  }

  /** Each node is once in the bucket of its hash. */
  ghost predicate Placed(list: seq<seq<Node>>) {
    && |list| > 0
    && (forall b: nat, n :: b < |list| && n in list[b] ==> n.hash % |list| == b)
    && (forall b: nat :: b < |list| ==> NoRepeats(list[b]))
    && Unique(NodesOf(list))
  }

  lemma InItsBucket(list: seq<seq<Node>>, n: Node)
    requires Placed(list)
    ensures n in NodesOf(list) <==> n in list[n.hash % |list|]
  {
  }

  /** Looking into one bucket is enough. */
  lemma FoundInBucket(list: seq<seq<Node>>, key: Bytes, hash: nat)
    requires Placed(list)
    ensures var chain := list[hash % |list|];
            var i := Find(chain, key, hash);
            IsEntry(NodesOf(list), key, hash, if i < |chain| then Some(chain[i]) else None)
  {
    var chain := list[hash % |list|];
    var i := Find(chain, key, hash);
    if i == |chain| {
      forall n | n in NodesOf(list)
        ensures !(n.key == key && n.hash == hash)
      {
        InItsBucket(list, n);
      }
    } else {
      InItsBucket(list, chain[i]);
    }
  }

  /** Entry `n` written over the old one of its key, or behind the chain. */
  function Put(chain: seq<Node>, n: Node): seq<Node> {
    var i := Find(chain, n.key, n.hash);
    if i < |chain| then chain[i := n] else chain + [n]
  }

  lemma PutKeepsPlaced(list: seq<seq<Node>>, n: Node, old_: Option<Node>)
    requires Placed(list) && IsEntry(NodesOf(list), n.key, n.hash, old_) && n !in NodesOf(list)
    ensures var b := n.hash % |list|;
            var list' := list[b := Put(list[b], n)];
            Placed(list') && NodesOf(list') == NodesOf(list) - (if old_.Some? then {old_.value} else {}) + {n}
  {
    hide NodesOf, Unique, NoRepeats, Find, Put;
    var b := n.hash % |list|;
    var list' := list[b := Put(list[b], n)];
    PutNodes(list, n, old_);
    PutHasNoRepeats(list, n);
    UniqueAfterPut(NodesOf(list), n, old_);
    forall m: Node | m in list'[b]
      ensures m.hash % |list| == b
    {
      PutMembers(list[b], n, m);
    }
  }

  lemma PutNodes(list: seq<seq<Node>>, n: Node, old_: Option<Node>)
    requires Placed(list) && IsEntry(NodesOf(list), n.key, n.hash, old_) && n !in NodesOf(list)
    ensures var b := n.hash % |list|;
            var list' := list[b := Put(list[b], n)];
            NodesOf(list') == NodesOf(list) - (if old_.Some? then {old_.value} else {}) + {n}
  {
    hide Put;
    var b := n.hash % |list|;
    var chain := list[b];
    var i := Find(chain, n.key, n.hash);
    var list' := list[b := Put(chain, n)];
    FoundInBucket(list, n.key, n.hash);
    if old_.Some? {
      InItsBucket(list, old_.value);
      assert i < |chain| && chain[i] == old_.value;
    } else {
      assert i == |chain|;
    }
    hide NodesOf, Unique, Find;
    forall m
      ensures m in NodesOf(list') <==> m in NodesOf(list) - (if old_.Some? then {old_.value} else {}) + {n}
    {
      PutMembers(chain, n, m);
      BucketMembers(list, list', b, m);
    }
  }

  lemma PutHasNoRepeats(list: seq<seq<Node>>, n: Node)
    requires Placed(list) && n !in NodesOf(list)
    ensures NoRepeats(Put(list[n.hash % |list|], n))
  {
    var chain := list[n.hash % |list|];
    assert forall m :: m in chain ==> m in NodesOf(list);
  }

  lemma UniqueAfterPut(nodes: set<Node>, n: Node, old_: Option<Node>)
    requires Unique(nodes) && IsEntry(nodes, n.key, n.hash, old_)
    ensures Unique(nodes - (if old_.Some? then {old_.value} else {}) + {n})
  {
  }

  lemma PutMembers(chain: seq<Node>, n: Node, m: Node)
    requires NoRepeats(chain)
    ensures var i := Find(chain, n.key, n.hash);
            m in Put(chain, n) <==> (m in chain && !(i < |chain| && m == chain[i])) || m == n
  {
    var i := Find(chain, n.key, n.hash);
    if i < |chain| {
      if m in chain && m != chain[i] {
        var j :| 0 <= j < |chain| && chain[j] == m;
        assert Put(chain, n)[j] == m;
      }
      assert Put(chain, n)[i] == n;
    }
  }

  lemma BucketMembers(list: seq<seq<Node>>, list': seq<seq<Node>>, b: nat, m: Node)
    requires |list| == |list'| && b < |list| && forall c :: 0 <= c < |list| && c != b ==> list'[c] == list[c]
    ensures m in NodesOf(list') <==> m in list'[b] || exists c: nat :: c != b && InBucket(list, c, m)
    ensures m in NodesOf(list) <==> m in list[b] || exists c: nat :: c != b && InBucket(list, c, m)
  {
    if m in NodesOf(list') {
      var c: nat :| c < |list'| && m in list'[c];
      assert c != b ==> InBucket(list, c, m);
    }
    if m in NodesOf(list) {
      var c: nat :| c < |list| && m in list[c];
      assert c != b ==> InBucket(list, c, m);
    }
    if c: nat :| c != b && InBucket(list, c, m) {
      assert m in list'[c];
    }
  }

  lemma CutKeepsPlaced(list: seq<seq<Node>>, key: Bytes, hash: nat, old_: Node)
    requires Placed(list) && IsEntry(NodesOf(list), key, hash, Some(old_))
    ensures var b := hash % |list|;
            var i := Find(list[b], key, hash);
            var list' := list[b := list[b][..i] + list[b][i + 1..]];
            i < |list[b]| && Placed(list') && NodesOf(list') == NodesOf(list) - {old_}
  {
    var b := hash % |list|;
    var chain := list[b];
    FoundInBucket(list, key, hash);
    InItsBucket(list, old_);
    var i := Find(chain, key, hash);
    assert i < |chain| && chain[i] == old_;
    var chain' := chain[..i] + chain[i + 1..];
    var list' := list[b := chain'];
    hide Find, Unique;
    forall m
      ensures m in chain' <==> m in chain && m != old_
    {
      CutMembers(chain, i, m);
    }
    forall m
      ensures m in NodesOf(list') <==> m in NodesOf(list) - {old_}
    {
      BucketMembers(list, list', b, m);
    }
    CutNoRepeats(chain, i);
    UniqueSubset(NodesOf(list), NodesOf(list'));
  }

  lemma CutNoRepeats(chain: seq<Node>, i: nat)
    requires NoRepeats(chain) && i < |chain|
    ensures NoRepeats(chain[..i] + chain[i + 1..])
  {
  }

  lemma CutMembers(chain: seq<Node>, i: nat, m: Node)
    requires NoRepeats(chain) && i < |chain|
    ensures m in chain[..i] + chain[i + 1..] <==> m in chain && m != chain[i]
  {
    if m in chain && m != chain[i] {
      var j :| 0 <= j < |chain| && chain[j] == m;
      assert (chain[..i] + chain[i + 1..])[if j < i then j else j - 1] == m;
    }
  }

  /** A node that is not in the table yet, at the front of its bucket. */
  lemma FrontKeepsPlaced(list: seq<seq<Node>>, n: Node)
    requires Placed(list) && n !in NodesOf(list) && Unique(NodesOf(list) + {n})
    ensures var b := n.hash % |list|;
            var list' := list[b := [n] + list[b]];
            Placed(list') && NodesOf(list') == NodesOf(list) + {n}
  {
    var b := n.hash % |list|;
    var list' := list[b := [n] + list[b]];
    forall m
      ensures m in NodesOf(list') <==> m in NodesOf(list) + {n}
    {
      BucketMembers(list, list', b, m);
    }
    assert NodesOf(list') == NodesOf(list) + {n};
    InItsBucket(list, n);
  }

  predicate IsPowerOfTwo(n: nat) {
    n == 1 || (n > 1 && n % 2 == 0 && IsPowerOfTwo(n / 2))
  }

  /** The nodes in buckets before `b` and in the first `i` places of bucket `b`. */
  ghost function Moved(list: seq<seq<Node>>, b: nat, i: nat): set<Node>
    requires b <= |list| && (b < |list| ==> i <= |list[b]|)
  {
    NodesOf(list[..b]) + if b < |list| then set n | n in list[b][..i] else {}
  }

  lemma MovedMore(list: seq<seq<Node>>, b: nat, i: nat)
    requires Placed(list) && b < |list| && i < |list[b]|
    ensures Moved(list, b, i + 1) == Moved(list, b, i) + {list[b][i]}
    ensures list[b][i] !in Moved(list, b, i) && list[b][i] in NodesOf(list)
  {
    var n := list[b][i];
    assert list[b][..i + 1] == list[b][..i] + [n];
    assert n.hash % |list| == b && NoRepeats(list[b]);
    assert forall c: nat :: c < b ==> n !in list[c];
    assert n !in NodesOf(list[..b]);
    assert forall j :: 0 <= j < i ==> list[b][..i][j] == list[b][j] != n;
    assert n in list[b];
  }

  lemma MovedIsPart(list: seq<seq<Node>>, b: nat, i: nat)
    requires b < |list| && i <= |list[b]|
    ensures Moved(list, b, i) <= NodesOf(list)
  {
    EarlierNodes(list, b);
    assert forall n :: n in list[b][..i] ==> n in list[b];
  }

  lemma EarlierNodes(list: seq<seq<Node>>, b: nat)
    requires b <= |list|
    ensures NodesOf(list[..b]) <= NodesOf(list)
  {
    forall n | n in NodesOf(list[..b])
      ensures n in NodesOf(list)
    {
      var c: nat :| c < |list[..b]| && n in list[..b][c];
      assert n in list[c];
    }
  }

  lemma MovedBucket(list: seq<seq<Node>>, b: nat)
    requires b < |list|
    ensures Moved(list, b + 1, 0) == Moved(list, b, |list[b]|)
  {
    var l, r := Moved(list, b + 1, 0), Moved(list, b, |list[b]|);
    assert list[b][..|list[b]|] == list[b];
    forall n | n in r
      ensures n in l
    {
      if n in list[b] {
        assert list[..b + 1][b] == list[b];
      } else {
        var c: nat :| c < |list[..b]| && n in list[..b][c];
        assert list[..b + 1][c] == list[..b][c];
      }
    }
    forall n | n in l
      ensures n in r
    {
      var c: nat :| c < |list[..b + 1]| && n in list[..b + 1][c];
      if c < b {
        assert list[..b][c] == list[..b + 1][c];
      }
    }
  }

  lemma AllMoved(list: seq<seq<Node>>)
    ensures Moved(list, |list|, 0) == NodesOf(list)
    ensures |list| > 0 ==> Moved(list, 0, 0) == {}
  {
    assert list[..|list|] == list;
  }

  class HandleTable {
    var length: nat
    var elems: nat
    var list: seq<seq<Node>>

    ghost function Nodes(): set<Node>
      reads this
    {
      NodesOf(list)
    }

    ghost predicate Valid()
      reads this
    {
      && Placed(list) && |list| == length && IsPowerOfTwo(length)
      && elems == |Nodes()|
    }

    constructor ()
      ensures Valid() && Nodes() == {}
    {
      length, elems, list := 4, 0, [[], [], [], []];
      FourIsPower();
    }

    method Lookup(key: Bytes, hash: nat) returns (r: Option<Node>)
      requires Valid()
      ensures IsEntry(Nodes(), key, hash, r)
    {
      var chain := list[hash % length];
      var i := Find(chain, key, hash);
      FoundInBucket(list, key, hash);
      r := if i < |chain| then Some(chain[i]) else None;
    }

    method Insert(n: Node) returns (old_: Option<Node>)
      requires Valid() && n !in Nodes()
      modifies this
      ensures Valid() && IsEntry(old(Nodes()), n.key, n.hash, old_)
      ensures Nodes() == old(Nodes()) - (if old_.Some? then {old_.value} else {}) + {n}
    {
      hide Placed, IsPowerOfTwo, NodesOf;
      old_ := Lookup(n.key, n.hash);
      BucketInRange(list, n.hash);
      PutKeepsPlaced(list, n, old_);
      ghost var before := Nodes();
      list := list[n.hash % length := Put(list[n.hash % length], n)];
      if old_.None? {
        elems := elems + 1;
        if elems > length {
          Resize();
        }
      }
    }

    method Remove(key: Bytes, hash: nat) returns (result: Option<Node>)
      requires Valid()
      modifies this
      ensures Valid() && IsEntry(old(Nodes()), key, hash, result)
      ensures Nodes() == old(Nodes()) - (if result.Some? then {result.value} else {})
    {
      hide Placed, IsPowerOfTwo, NodesOf;
      result := Lookup(key, hash);
      BucketInRange(list, hash);
      if result.Some? {
        CutKeepsPlaced(list, key, hash, result.value);
        var chain := list[hash % length];
        var i := Find(chain, key, hash);
        list := list[hash % length := chain[..i] + chain[i + 1..]];
        elems := elems - 1;
      }
    }

    method Resize()
      requires Placed(list) && |list| == length && elems == |Nodes()|
      modifies this
      ensures Valid() && Nodes() == old(Nodes()) && elems == old(elems) && elems <= length
    {
      hide Placed, IsPowerOfTwo, NodesOf, Moved;
      var newLength := NewLength(elems);
      var newList := Rehashed(list, newLength);
      list := newList;
      length := newLength;
    }
  }

  /** The least power of two, at least 4, that is not below `elems`. */
  method NewLength(elems: nat) returns (newLength: nat)
    ensures newLength >= 4 && newLength >= elems && IsPowerOfTwo(newLength)
    ensures newLength > 4 ==> newLength / 2 < elems
  {
    hide IsPowerOfTwo;
    newLength := 4;
    FourIsPower();
    while newLength < elems
      invariant newLength >= 4 && IsPowerOfTwo(newLength)
      invariant newLength > 4 ==> newLength / 2 < elems
    {
      Doubled(newLength);
      newLength := newLength * 2;
    }
  }

  lemma FourIsPower()
    ensures IsPowerOfTwo(4)
  {
    assert IsPowerOfTwo(2) && IsPowerOfTwo(1);
  }

  lemma Doubled(n: nat)
    requires IsPowerOfTwo(n)
    ensures IsPowerOfTwo(n * 2) && n * 2 / 2 == n
  {
  }

  /** The loops of Resize: every entry at the front of its new bucket. */
  method Rehashed(list: seq<seq<Node>>, newLength: nat) returns (newList: seq<seq<Node>>)
    requires Placed(list) && newLength > 0
    ensures Placed(newList) && |newList| == newLength && NodesOf(newList) == NodesOf(list)
  {
    hide Placed, NodesOf, Moved;
    newList := seq(newLength, i => []);
    EmptyIsPlaced(newList);
    AllMoved(list);
    BucketInRange(list, 0);
    UniqueNodes(list);
    var b := 0;
    while b < |list|
      invariant b <= |list| && |newList| == newLength && Placed(newList)
      invariant NodesOf(newList) == Moved(list, b, 0)
    {
      var i := 0;
      while i < |list[b]|
        invariant i <= |list[b]| && |newList| == newLength && Placed(newList)
        invariant NodesOf(newList) == Moved(list, b, i)
      {
        var h := list[b][i];
        MovedMore(list, b, i);
        MovedIsPart(list, b, i);
        UniqueSubset(NodesOf(list), NodesOf(newList) + {h});
        FrontKeepsPlaced(newList, h);
        newList := newList[h.hash % newLength := [h] + newList[h.hash % newLength]];
        i := i + 1;
      }
      MovedBucket(list, b);
      b := b + 1;
    }
  }

  lemma BucketInRange(list: seq<seq<Node>>, hash: nat)
    requires Placed(list)
    ensures |list| > 0 && 0 <= hash % |list| < |list|
  {
  }

  lemma EmptyIsPlaced(list: seq<seq<Node>>)
    requires |list| > 0 && forall b :: 0 <= b < |list| ==> list[b] == []
    ensures Placed(list) && NodesOf(list) == {}
  {
  }

  lemma UniqueNodes(list: seq<seq<Node>>)
    requires Placed(list)
    ensures Unique(NodesOf(list))
  {
  }

  lemma UniqueSubset(s: set<Node>, t: set<Node>)
    requires Unique(s) && t <= s
    ensures Unique(t)
  {
  }
}
