/**
 Filter blocks (table/filter_block.cc): one Bloom filter for every 2 KB of file offsets, over the keys of
 the data blocks that begin there.
 */
module FilterBlock {
  import opened Coding
  import opened Bloom
  import opened BlockBuilder
  import Block

  /** kFilterBaseLg and kFilterBase. */
  const FILTER_BASE_LG: nat := 11
  const FILTER_BASE: nat := 2048

  // ---- flattened lists -----------------------------------------------------------------------------------

  /** Where piece `i` ends in `s`. */
  function Limit(s: Bytes, starts: seq<nat>, i: nat): nat
    requires i < |starts|
  {
    if i + 1 < |starts| then starts[i + 1] else |s|
  }

  /** `s` holds the parts end to end, the first at `starts[0]`. */
  predicate Pieces(s: Bytes, starts: seq<nat>, parts: seq<Bytes>) {
    && |starts| == |parts|
    && forall i :: 0 <= i < |starts| ==>
         starts[i] <= Limit(s, starts, i) <= |s| && s[starts[i]..Limit(s, starts, i)] == parts[i]
  }

  lemma PiecesAppend(s: Bytes, starts: seq<nat>, parts: seq<Bytes>, part: Bytes)
    requires Pieces(s, starts, parts)
    ensures Pieces(s + part, starts + [|s|], parts + [part])
  {
    var t, ts := s + part, starts + [|s|];
    forall i | 0 <= i < |ts|
      ensures ts[i] <= Limit(t, ts, i) <= |t| && t[ts[i]..Limit(t, ts, i)] == (parts + [part])[i]
    {
      if i < |starts| {
        assert Limit(t, ts, i) == Limit(s, starts, i);
        assert t[ts[i]..Limit(t, ts, i)] == s[starts[i]..Limit(s, starts, i)];
      }
    }
  }

  // ---- building ------------------------------------------------------------------------------------------

  /** The parameters of the policy. */
  datatype Policy = Policy(hash: Bytes -> Word, bitsPerKey: nat, k: nat)

  ghost predicate IsFilterOf(p: Policy, keys: seq<Bytes>, filter: Bytes) {
    if keys == [] then filter == [] else IsFilter(p.hash, p.bitsPerKey, p.k, keys, filter)
  }

  ghost predicate AreFilters(p: Policy, groups: seq<seq<Bytes>>, filters: seq<Bytes>) {
    |groups| == |filters| && forall i :: 0 <= i < |groups| ==> IsFilterOf(p, groups[i], filters[i])
  }

  /** The filters, their offsets, where the offsets begin, and the base. */
  predicate IsLaidOut(contents: Bytes, result: Bytes, offsets: seq<nat>) {
    && contents == result + Words(offsets) + Fixed32(|result|) + [FILTER_BASE_LG]
    && |contents| <= MAX_UINT32
  }

  /** A finished filter block with one filter for each group of keys. */
  ghost predicate IsFilterBlock(p: Policy, contents: Bytes, groups: seq<seq<Bytes>>) {
    exists result, offsets, filters :: Holds(p, contents, groups, result, offsets, filters)
  }

  ghost predicate Holds(p: Policy, contents: Bytes, groups: seq<seq<Bytes>>,
                        result: Bytes, offsets: seq<nat>, filters: seq<Bytes>) {
    && IsLaidOut(contents, result, offsets)
    && Pieces(result, offsets, filters) && AreFilters(p, groups, filters)
  }

  /** The groups after a block is started at an offset of index `n`: the keys at hand form one, the rest are empty. */
  function Started(groups: seq<seq<Bytes>>, pending: seq<Bytes>, n: nat): (r: (seq<seq<Bytes>>, seq<Bytes>))
    ensures |r.0| == if n > |groups| then n else |groups|
    ensures if n > |groups| then groups + [pending] <= r.0 && r.1 == [] else r == (groups, pending)
    decreases n - |groups|
  {
    if n > |groups| then Started(groups + [pending], [], n) else (groups, pending)
  }

  class FilterBlockBuilder {
    const policy: Policy
    var keys: Bytes
    var start: seq<nat>
    var result: Bytes
    var filterOffsets: seq<nat>
    ghost var pending: seq<Bytes>
    ghost var filters: seq<Bytes>
    ghost var groups: seq<seq<Bytes>>

    ghost predicate Valid()
      reads this
    {
      && 1 <= policy.k <= 30
      && Pieces(keys, start, pending)
      && Pieces(result, filterOffsets, filters) && AreFilters(policy, groups, filters)
    }

    constructor (policy: Policy)
      requires 1 <= policy.k <= 30
      ensures Valid() && this.policy == policy && groups == [] && pending == []
    {
      this.policy := policy;
      keys, start, result, filterOffsets := [], [], [], [];
      pending, filters, groups := [], [], [];
    }

    /** The keys at hand become the next group. */
    method GenerateFilter()
      requires Valid()
      modifies this
      ensures Valid() && groups == old(groups + [pending]) && pending == []
    {
      hide Pieces, IsFilter;
      var numKeys := |start|;
      assert numKeys == |pending| by { PiecesCount(keys, start, pending); }
      PiecesCount(result, filterOffsets, filters);
      if numKeys == 0 {
        PiecesAppend(result, filterOffsets, filters, []);
        assert result + [] == result;
        filterOffsets := filterOffsets + [|result|];
        filters, groups := filters + [[]], groups + [pending];
        return;
      }
      start := start + [|keys|];
      var tmpKeys: seq<Bytes> := [];
      for i := 0 to numKeys
        invariant keys == old(keys) && start == old(start) + [|keys|]
        invariant result == old(result) && filterOffsets == old(filterOffsets)
        invariant pending == old(pending) && filters == old(filters) && groups == old(groups)
        invariant tmpKeys == pending[..i]
      {
        PieceAt(keys, old(start), pending, i);
        var base := start[i];
        var length := start[i + 1] - start[i];
        tmpKeys := tmpKeys + [keys[base..base + length]];
      }
      assert pending[..numKeys] == pending;
      filterOffsets := filterOffsets + [|result|];
      var r := CreateFilter(policy.hash, policy.bitsPerKey, policy.k, tmpKeys, result);
      ghost var filter := r[|result|..];
      assert r == result + filter;
      PiecesAppend(result, old(filterOffsets), filters, filter);
      result := r;
      filters, groups := filters + [filter], groups + [pending];
      keys, start, pending := [], [], [];
      NoPieces();
    }

    /** The offsets of blocks never fall. */
    method StartBlock(blockOffset: nat)
      requires Valid() && blockOffset / FILTER_BASE >= |groups|
      modifies this
      ensures Valid() && (groups, pending) == Started(old(groups), old(pending), blockOffset / FILTER_BASE)
    {
      PiecesCount(result, filterOffsets, filters);
      var filterIndex := blockOffset / FILTER_BASE;
      while filterIndex > |filterOffsets|
        invariant Valid() && |filterOffsets| == |groups| <= filterIndex
        invariant Started(groups, pending, filterIndex) == Started(old(groups), old(pending), filterIndex)
        decreases filterIndex - |filterOffsets|
      {
        GenerateFilter();
      }
    }

    method AddKey(key: Bytes)
      requires Valid()
      modifies this
      ensures Valid() && groups == old(groups) && pending == old(pending) + [key]
    {
      PiecesAppend(keys, start, pending, key);
      start := start + [|keys|];
      keys := keys + key;
      pending := pending + [key];
    }

    method Finish() returns (contents: Bytes)
      requires Valid()
      modifies this
      ensures groups == old(if pending == [] then groups else groups + [pending])
      ensures |contents| <= MAX_UINT32 ==> IsFilterBlock(policy, contents, groups)
    {
      hide Fixed32, Pieces, AreFilters, IsFilter, IsFilterBlock;
      PiecesCount(keys, start, pending);
      if start != [] {
        GenerateFilter();
      }
      var arrayOffset := |result|;
      ghost var before, offsets, parts := result, filterOffsets, filters;
      var i := 0;
      assert filterOffsets[..0] == [];
      while i < |filterOffsets|
        invariant i <= |filterOffsets| && result == before + Words(filterOffsets[..i])
        invariant filterOffsets == offsets && groups == old(if pending == [] then groups else groups + [pending])
      {
        assert filterOffsets[..i + 1][..i] == filterOffsets[..i];
        result := result + Fixed32(filterOffsets[i]);
        i := i + 1;
      }
      assert filterOffsets[..|filterOffsets|] == filterOffsets;
      result := result + Fixed32(arrayOffset);
      result := result + [FILTER_BASE_LG];
      contents := result;
      FinishedIsFilterBlock(policy, before, offsets, parts, groups);
    }
  }

  lemma FinishedIsFilterBlock(p: Policy, result: Bytes, offsets: seq<nat>, filters: seq<Bytes>, groups: seq<seq<Bytes>>)
    requires Pieces(result, offsets, filters) && AreFilters(p, groups, filters)
    ensures var contents := result + Words(offsets) + Fixed32(|result|) + [FILTER_BASE_LG];
      |contents| <= MAX_UINT32 ==> IsFilterBlock(p, contents, groups)
  {
    hide Fixed32, Words, Pieces, AreFilters;
    var contents := result + Words(offsets) + Fixed32(|result|) + [FILTER_BASE_LG];
    assert |contents| <= MAX_UINT32 ==> Holds(p, contents, groups, result, offsets, filters);
  }

  lemma PiecesCount(s: Bytes, starts: seq<nat>, parts: seq<Bytes>)
    requires Pieces(s, starts, parts)
    ensures |starts| == |parts|
  {
  }

  lemma NoPieces()
    ensures Pieces([], [], [])
  {
  }

  lemma PieceAt(s: Bytes, starts: seq<nat>, parts: seq<Bytes>, i: nat)
    requires Pieces(s, starts, parts) && i < |parts|
    ensures |starts| == |parts| && starts[i] <= Limit(s, starts, i) <= |s|
    ensures s[starts[i]..Limit(s, starts, i)] == parts[i]
  {
  }

  // ---- reading -------------------------------------------------------------------------------------------

  /** FilterBlockReader: where the offsets are, how many, and the base. */
  datatype Reader = Reader(data: Bytes, offset: nat, num: nat, baseLg: nat)

  /** The constructor of FilterBlockReader; without enough contents there are no filters. */
  function OpenFilterBlock(contents: Bytes): Reader {
    var n := |contents|;
    if n < 5 then Reader(contents, 0, 0, 0) else
      var baseLg := contents[n - 1];
      var lastWord := DecodeFixed(contents[n - 5..n - 1]);
      if lastWord > n - 5 then Reader(contents, 0, 0, baseLg)
      else Reader(contents, lastWord, (n - 5 - lastWord) / 4, baseLg)
  }

  /** DecodeFixed32 at position `p`. */
  function WordAt(s: Bytes, p: nat): nat
    requires p + 4 <= |s|
  {
    DecodeFixed(s[p..p + 4])
  }

  /** FilterBlockReader::KeyMayMatch. */
  predicate MayMatch(hash: Bytes -> Word, contents: Bytes, blockOffset: nat, key: Bytes) {
    var r := OpenFilterBlock(contents);
    var index := blockOffset / Power(2, r.baseLg);
    if index < r.num then
      var start := WordAt(r.data, r.offset + index * 4);
      var limit := WordAt(r.data, r.offset + index * 4 + 4);
      if start <= limit && limit <= r.offset then
        Matches(hash, key, r.data[start..limit])
      else
        start != limit
    else
      true
  }

  lemma Base()
    ensures Power(2, FILTER_BASE_LG) == FILTER_BASE
  {
    assert Power(2, 11) == 2 * Power(2, 10) == 4 * Power(2, 9) == 8 * Power(2, 8) == 16 * Power(2, 7);
    assert Power(2, 7) == 2 * Power(2, 6) == 4 * Power(2, 5) == 8 * Power(2, 4);
    assert Power(2, 4) == 2 * Power(2, 3) == 4 * Power(2, 2) == 8 * Power(2, 1) == 16 * Power(2, 0);
  }

  lemma WordSlice(result: Bytes, words: Bytes, last: Bytes, n: nat, i: nat)
    requires |words| == 4 * n && |last| == 4 && i <= n
    ensures var contents, p := result + words + last + [FILTER_BASE_LG], |result| + i * 4;
      p + 4 <= |contents| && contents[p..p + 4] == if i < n then words[4 * i..4 * i + 4] else last
  {
  }

  /** The offsets and the word after them, as they are read from a finished block. */
  lemma WordsAreRead(result: Bytes, offsets: seq<nat>, contents: Bytes, i: nat)
    requires IsLaidOut(contents, result, offsets) && i <= |offsets| && (i < |offsets| ==> offsets[i] <= |result|)
    ensures var p := |result| + i * 4;
      p + 4 <= |contents|
      && WordAt(contents, p) == if i < |offsets| then offsets[i] else |result|
  {
    hide Fixed32, DecodeFixed, Words;
    WordSlice(result, Words(offsets), Fixed32(|result|), |offsets|, i);
    Fixed32RoundTrip(|result|);
    if i < |offsets| {
      Block.WordAt(offsets, i);
      Fixed32RoundTrip(offsets[i]);
    }
  }

  lemma FinishedFilterBlockOpens(result: Bytes, offsets: seq<nat>, contents: Bytes)
    requires IsLaidOut(contents, result, offsets)
    ensures OpenFilterBlock(contents) == Reader(contents, |result|, |offsets|, FILTER_BASE_LG)
  {
    hide Fixed32, DecodeFixed, Words;
    WordsAreRead(result, offsets, contents, |offsets|);
  }

  lemma FilterSize(p: Policy, keys: seq<Bytes>, filter: Bytes)
    requires keys != [] && IsFilterOf(p, keys, filter)
    ensures |filter| == FilterBytes(|keys|, p.bitsPerKey) + 1
  {
  }

  /**
   What the reader says of a key for a data block at `blockOffset`: the filter of the block's group decides;
   no key is in an empty group; and beyond the last group anything may match.
   */
  lemma MayMatchIff(p: Policy, contents: Bytes, groups: seq<seq<Bytes>>, blockOffset: nat, key: Bytes)
    requires 1 <= p.k <= 30 && IsFilterBlock(p, contents, groups)
    ensures var index := blockOffset / FILTER_BASE;
      MayMatch(p.hash, contents, blockOffset, key)
      <==> index >= |groups| || (groups[index] != []
           && AllHit(p.hash, p.k, groups[index], FilterBytes(|groups[index]|, p.bitsPerKey) * 8, p.hash(key)))
  {
    hide OpenFilterBlock, DecodeFixed, Words, Power, IsFilter, Pieces, MayMatch, Matches, AllHit, IsLaidOut;
    var result, offsets, filters :| Holds(p, contents, groups, result, offsets, filters);
    var index := blockOffset / FILTER_BASE;
    FinishedFilterBlockOpens(result, offsets, contents);
    Base();
    PiecesCount(result, offsets, filters);
    if index < |groups| {
      FilterIsRead(result, offsets, filters, contents, index);
      MayMatchReads(p.hash, contents, blockOffset, key, result, offsets, filters);
      assert IsFilterOf(p, groups[index], filters[index]);
      if groups[index] != [] {
        MatchesIff(p.hash, p.bitsPerKey, p.k, groups[index], filters[index], key);
        FilterSize(p, groups[index], filters[index]);
      } else {
        NothingMatches(p.hash, key);
      }
    } else {
      MayMatchBeyond(p.hash, contents, blockOffset, key);
    }
  }

  lemma NothingMatches(hash: Bytes -> Word, key: Bytes)
    ensures !Matches(hash, key, [])
  {
  }

  lemma MayMatchBeyond(hash: Bytes -> Word, contents: Bytes, blockOffset: nat, key: Bytes)
    requires blockOffset / Power(2, OpenFilterBlock(contents).baseLg) >= OpenFilterBlock(contents).num
    ensures MayMatch(hash, contents, blockOffset, key)
  {
  }

  lemma MayMatchReads(hash: Bytes -> Word, contents: Bytes, blockOffset: nat, key: Bytes,
                      result: Bytes, offsets: seq<nat>, filters: seq<Bytes>)
    requires OpenFilterBlock(contents) == Reader(contents, |result|, |offsets|, FILTER_BASE_LG)
    requires |result| + |offsets| * 4 + 4 <= |contents| && |filters| == |offsets|
    requires var index := blockOffset / Power(2, FILTER_BASE_LG);
      && index < |offsets|
      && var start, limit := WordAt(contents, |result| + index * 4), WordAt(contents, |result| + index * 4 + 4);
      start <= limit <= |result| && contents[start..limit] == filters[index]
    ensures MayMatch(hash, contents, blockOffset, key)
       <==> Matches(hash, key, filters[blockOffset / Power(2, FILTER_BASE_LG)])
  {
    hide OpenFilterBlock, WordAt, Power, Matches;
  }

  /** A filter stands between its offset and the next word, which are read from the end of the block. */
  lemma FilterIsRead(result: Bytes, offsets: seq<nat>, filters: seq<Bytes>, contents: Bytes, index: nat)
    requires IsLaidOut(contents, result, offsets) && Pieces(result, offsets, filters) && index < |offsets|
    ensures |result| + |offsets| * 4 + 4 <= |contents|
    ensures var start, limit := WordAt(contents, |result| + index * 4), WordAt(contents, |result| + index * 4 + 4);
      start <= limit <= |result| && contents[start..limit] == filters[index]
  {
    hide WordAt, Pieces, IsLaidOut;
    PiecesCount(result, offsets, filters);
    TwoWordsAreRead(result, offsets, filters, contents, index);
    StartsWith(result, offsets, contents);
    PieceAt(result, offsets, filters, index);
    PrefixSlice(result, contents, offsets[index], Limit(result, offsets, index));
  }

  lemma TwoWordsAreRead(result: Bytes, offsets: seq<nat>, filters: seq<Bytes>, contents: Bytes, index: nat)
    requires IsLaidOut(contents, result, offsets) && Pieces(result, offsets, filters) && index < |offsets|
    ensures |result| + |offsets| * 4 + 4 <= |contents|
    ensures WordAt(contents, |result| + index * 4) == offsets[index]
    ensures WordAt(contents, |result| + index * 4 + 4) == Limit(result, offsets, index)
  {
    hide WordAt, Pieces, IsLaidOut;
    StartsWith(result, offsets, contents);
    PiecesCount(result, offsets, filters);
    PieceAt(result, offsets, filters, index);
    if index + 1 < |offsets| {
      PieceAt(result, offsets, filters, index + 1);
    }
    WordsAreRead(result, offsets, contents, index);
    WordsAreRead(result, offsets, contents, index + 1);
    assert |result| + (index + 1) * 4 == |result| + index * 4 + 4;
  }

  lemma StartsWith(result: Bytes, offsets: seq<nat>, contents: Bytes)
    requires IsLaidOut(contents, result, offsets)
    ensures result <= contents && |contents| == |result| + |offsets| * 4 + 5
  {
    hide Fixed32, Words;
  }

  lemma PrefixSlice(a: Bytes, s: Bytes, start: nat, limit: nat)
    requires a <= s && start <= limit <= |a|
    ensures s[start..limit] == a[start..limit]
  {
  }

  /** No false negatives: a key of a data block's group may match. */
  lemma KeysOfBlockMayMatch(p: Policy, contents: Bytes, groups: seq<seq<Bytes>>, blockOffset: nat, key: Bytes)
    requires 1 <= p.k <= 30 && IsFilterBlock(p, contents, groups)
    requires blockOffset / FILTER_BASE < |groups| ==> key in groups[blockOffset / FILTER_BASE]
    ensures MayMatch(p.hash, contents, blockOffset, key)
  {
    hide IsFilterBlock, MayMatch, Power, DecodeFixed;
    MayMatchIff(p, contents, groups, blockOffset, key);
    var index := blockOffset / FILTER_BASE;
    if index < |groups| {
      var i :| 0 <= i < |groups[index]| && groups[index][i] == key;
      OwnProbesHit(p.hash, p.k, groups[index], FilterBytes(|groups[index]|, p.bitsPerKey) * 8, i);
    }
  }
}
