/**
 Version edits applied to a version (VersionSet::Builder, db/version_set.cc:650-754).
 */
module VersionBuilder {
  import opened Files
  import opened Lsm

  /** The file part of a VersionEdit. */
  datatype FileEdit = FileEdit(deleted: set<(nat, nat)>, added: seq<(nat, File)>)

  ghost predicate LevelsInRange(edit: FileEdit) {
    && (forall d :: d in edit.deleted ==> d.0 < NUM_LEVELS)
    && (forall a :: a in edit.added ==> a.0 < NUM_LEVELS)
  }

  // ---- what one level holds, as a set -------------------------------------------------------------------

  ghost function DeletedIn(ds: set<(nat, nat)>, l: nat): set<nat> {
    set d | d in ds && d.0 == l :: d.1
  }

  ghost function AddedIn(xs: seq<(nat, File)>, l: nat): set<File> {
    set a | a in xs && a.0 == l :: a.1
  }

  ghost function DeletedAt(edit: FileEdit, l: nat): set<nat> {
    DeletedIn(edit.deleted, l)
  }

  ghost function AddedAt(edit: FileEdit, l: nat): set<File> {
    AddedIn(edit.added, l)
  }

  ghost function Numbers(fs: set<File>): set<nat> {
    set f | f in fs :: f.number
  }

  /** A level's pending state in the builder: numbers deleted and files added. */
  datatype Pending = Pending(deleted: set<nat>, added: set<File>)

  ghost function Merge(p: Pending, edit: FileEdit, l: nat): Pending {
    Pending(p.deleted + DeletedAt(edit, l) - Numbers(AddedAt(edit, l)), p.added + AddedAt(edit, l))
  }

  /** SaveTo for one level. */
  ghost function Saved(base: set<File>, p: Pending): set<File> {
    set f | f in base + p.added && f.number !in p.deleted
  }

  const NOTHING := Pending({}, {})

  ghost function MergeAll(p: Pending, edits: seq<FileEdit>, l: nat): Pending
    decreases |edits|
  {
    if edits == [] then p else MergeAll(Merge(p, edits[0], l), edits[1..], l)
  }

  ghost function ApplyOneByOne(base: set<File>, edits: seq<FileEdit>, l: nat): set<File>
    decreases |edits|
  {
    if edits == [] then base else ApplyOneByOne(Saved(base, Merge(NOTHING, edits[0], l)), edits[1..], l)
  }

  /** No file is added to a level that has, or was given, a file with its number. */
  ghost predicate NeverAddedTwice(known: set<nat>, edits: seq<FileEdit>, l: nat)
    decreases |edits|
  {
    edits != [] ==>
      && Numbers(AddedAt(edits[0], l)) !! known
      && NeverAddedTwice(known + Numbers(AddedAt(edits[0], l)), edits[1..], l)
  }

  lemma MergeThenSave(base: set<File>, p: Pending, edit: FileEdit, l: nat)
    requires Numbers(AddedAt(edit, l)) !! Numbers(base + p.added)
    ensures Saved(base, Merge(p, edit, l)) == Saved(Saved(base, p), Merge(NOTHING, edit, l))
  {
    var now, one := Saved(base, p), AddedAt(edit, l);
    forall f
      ensures f in Saved(base, Merge(p, edit, l)) <==> f in Saved(now, Merge(NOTHING, edit, l))
    {
      if f in one {
        assert f.number in Numbers(one);
      } else if f in base + p.added {
        assert f.number in Numbers(base + p.added);
      }
    }
  }

  /** The general form: a builder part way through against the version it would save. */
  lemma {:induction false} ReplayFrom(base: set<File>, p: Pending, edits: seq<FileEdit>, l: nat)
    requires NeverAddedTwice(Numbers(base + p.added), edits, l)
    ensures Saved(base, MergeAll(p, edits, l)) == ApplyOneByOne(Saved(base, p), edits, l)
    decreases |edits|
  {
    if edits != [] {
      var next := Merge(p, edits[0], l);
      MergeThenSave(base, p, edits[0], l);
      assert base + next.added == (base + p.added) + AddedAt(edits[0], l);
      NumbersOfUnion(base + p.added, AddedAt(edits[0], l));
      ReplayFrom(base, next, edits[1..], l);
    }
  }

  lemma NumbersOfUnion(a: set<File>, b: set<File>)
    ensures Numbers(a + b) == Numbers(a) + Numbers(b)
  {
    forall n
      ensures n in Numbers(a + b) <==> n in Numbers(a) + Numbers(b)
    {
      if n in Numbers(a) {
        var f :| f in a && f.number == n;
        assert f in a + b;
      } else if n in Numbers(b) {
        var f :| f in b && f.number == n;
        assert f in a + b;
      }
    }
  }

  /**
   Replaying a whole list of edits through one builder, as recovery does, gives the files that installing
   a version after every edit gives.
   */
  lemma ReplayIsOneByOne(base: set<File>, edits: seq<FileEdit>, l: nat)
    requires NeverAddedTwice(Numbers(base), edits, l)
    ensures Saved(base, MergeAll(NOTHING, edits, l)) == ApplyOneByOne(base, edits, l)
  {
    assert base + NOTHING.added == base;
    assert Saved(base, NOTHING) == base;
    ReplayFrom(base, NOTHING, edits, l);
  }

  /** The hypothesis is needed: one number added twice is kept by the builder, dropped one by one. */
  lemma ReplayDiffersWhenAddedTwice(f: File, g: File)
    requires f.number == g.number && f != g
    ensures var edits := [FileEdit({(1, f.number)}, []), FileEdit({}, [(1, g)])];
      Saved({f}, MergeAll(NOTHING, edits, 1)) != ApplyOneByOne({f}, edits, 1)
  {
    var d, a := FileEdit({(1, f.number)}, []), FileEdit({}, [(1, g)]);
    var edits := [d, a];
    assert (1, f.number) in d.deleted;
    assert DeletedAt(d, 1) == {f.number};
    assert AddedAt(d, 1) == {};
    assert DeletedAt(a, 1) == {};
    assert (1, g) in a.added;
    assert AddedAt(a, 1) == {g};
    assert edits[1..] == [a] && edits[1..][1..] == [];
    var once := Merge(NOTHING, d, 1);
    assert MergeAll(once, [a], 1) == MergeAll(Merge(once, a, 1), [a][1..], 1) == Merge(once, a, 1);
    assert MergeAll(NOTHING, edits, 1) == MergeAll(once, edits[1..], 1);
    assert ApplyOneByOne({f}, edits, 1) == ApplyOneByOne(Saved({f}, once), [a], 1)
        == ApplyOneByOne(Saved(Saved({f}, once), Merge(NOTHING, a, 1)), [a][1..], 1);
    assert Merge(NOTHING, d, 1).deleted == {f.number};
    assert g.number in Numbers({g});
    assert f in Saved({f}, MergeAll(NOTHING, edits, 1));
    assert Saved({f}, Merge(NOTHING, d, 1)) == {};
  }

  /** The builder brings back a deleted file because another one with its number is added. */
  ghost predicate Revives(base: set<File>, p: Pending, edit: FileEdit, l: nat) {
    exists f :: f in base + p.added && f !in AddedAt(edit, l)
                && f.number in p.deleted && f.number in Numbers(AddedAt(edit, l))
  }

  lemma StepAgreesIff(base: set<File>, p: Pending, edit: FileEdit, l: nat)
    ensures Saved(base, Merge(p, edit, l)) == Saved(Saved(base, p), Merge(NOTHING, edit, l))
       <==> !Revives(base, p, edit, l)
  {
    hide AddedAt, DeletedAt, Numbers;
    var now := Saved(base, p);
    forall f
      ensures f in Saved(base, Merge(p, edit, l)) && f !in Saved(now, Merge(NOTHING, edit, l))
         <==> f in base + p.added && f !in AddedAt(edit, l) && f.number in p.deleted
              && f.number in Numbers(AddedAt(edit, l))
      ensures f in Saved(now, Merge(NOTHING, edit, l)) ==> f in Saved(base, Merge(p, edit, l))
    {
      if f in AddedAt(edit, l) {
        AddedHasNumber(edit, l, f);
      }
    }
  }

  lemma AddedHasNumber(edit: FileEdit, l: nat, f: File)
    requires f in AddedAt(edit, l)
    ensures f.number in Numbers(AddedAt(edit, l))
  {
  }

  lemma {:induction false} OneMoreEdit(base: set<File>, p: Pending, edits: seq<FileEdit>, e: FileEdit, l: nat)
    ensures MergeAll(p, edits + [e], l) == Merge(MergeAll(p, edits, l), e, l)
    ensures ApplyOneByOne(base, edits + [e], l) == Saved(ApplyOneByOne(base, edits, l), Merge(NOTHING, e, l))
    decreases |edits|
  {
    hide Merge, Saved;
    if edits == [] {
      assert (edits + [e])[1..] == [];
    } else {
      assert (edits + [e])[1..] == edits[1..] + [e];
      OneMoreEdit(Saved(base, Merge(NOTHING, edits[0], l)), Merge(p, edits[0], l), edits[1..], e, l);
    }
  }

  /** After the first `k` edits the builder would save what installing them one by one gives. */
  ghost predicate AgreesAfter(base: set<File>, edits: seq<FileEdit>, k: nat, l: nat)
    requires k <= |edits|
  {
    Saved(base, MergeAll(NOTHING, edits[..k], l)) == ApplyOneByOne(base, edits[..k], l)
  }

  ghost predicate RevivesAt(base: set<File>, edits: seq<FileEdit>, k: nat, l: nat)
    requires k < |edits|
  {
    Revives(base, MergeAll(NOTHING, edits[..k], l), edits[k], l)
  }

  lemma NextAgreesIff(base: set<File>, edits: seq<FileEdit>, k: nat, l: nat)
    requires k < |edits| && AgreesAfter(base, edits, k, l)
    ensures AgreesAfter(base, edits, k + 1, l) <==> !RevivesAt(base, edits, k, l)
  {
    hide Merge, Saved, Revives, MergeAll, ApplyOneByOne;
    assert edits[..k + 1] == edits[..k] + [edits[k]];
    OneMoreEdit(base, NOTHING, edits[..k], edits[k], l);
    StepAgreesIff(base, MergeAll(NOTHING, edits[..k], l), edits[k], l);
  }

  /**
   The builder agrees with installing one by one after every edit if and only if no edit adds a file under
   the number of another one that is deleted: more than the hypothesis above asks for, and all that is needed.
   */
  lemma ReplayAgreesIff(base: set<File>, edits: seq<FileEdit>, l: nat)
    ensures (forall k: nat :: k <= |edits| ==> AgreesAfter(base, edits, k, l))
       <==> (forall k: nat :: k < |edits| ==> !RevivesAt(base, edits, k, l))
  {
    hide AgreesAfter, RevivesAt;
    if forall k: nat :: k < |edits| ==> !RevivesAt(base, edits, k, l) {
      forall k: nat | k <= |edits|
        ensures AgreesAfter(base, edits, k, l)
      {
        AgreesUpTo(base, edits, k, l);
      }
    } else {
      var k: nat :| k < |edits| && RevivesAt(base, edits, k, l);
      if AgreesAfter(base, edits, k, l) {
        NextAgreesIff(base, edits, k, l);
        assert !AgreesAfter(base, edits, k + 1, l);
      }
    }
  }

  lemma {:induction false} AgreesUpTo(base: set<File>, edits: seq<FileEdit>, k: nat, l: nat)
    requires k <= |edits| && forall j: nat :: j < |edits| ==> !RevivesAt(base, edits, j, l)
    ensures AgreesAfter(base, edits, k, l)
  {
    hide RevivesAt;
    if k == 0 {
      assert edits[..0] == [];
      assert Saved(base, NOTHING) == base;
    } else {
      AgreesUpTo(base, edits, k - 1, l);
      NextAgreesIff(base, edits, k - 1, l);
    }
  }

  // ---- sorted lists ----------------------------------------------------------------------------------------

  /** A list in file order is determined by its files. */
  lemma {:induction false} OrderDeterminesList(a: seq<File>, b: seq<File>)
    requires InFileOrder(a) && InFileOrder(b) && FileSet(a) == FileSet(b)
    ensures a == b
    decreases |a|
  {
    NoFileInList(a);
    NoFileInList(b);
    if a != [] {
      assert a[0] in FileSet(b) && b[0] in FileSet(a);
      SameFirst(a, b);
      TailSet(a);
      TailSet(b);
      OrderDeterminesList(a[1..], b[1..]);
      assert a == [a[0]] + a[1..] && b == [b[0]] + b[1..];
    }
  }

  lemma NoFileInList(a: seq<File>)
    ensures a == [] <==> FileSet(a) == {}
  {
    if a != [] {
      assert a[0] in FileSet(a);
    }
  }

  lemma SameFirst(a: seq<File>, b: seq<File>)
    requires InFileOrder(a) && InFileOrder(b) && a != [] && b != [] && a[0] in b && b[0] in a
    ensures a[0] == b[0]
  {
    var i :| 0 <= i < |b| && b[i] == a[0];
    var j :| 0 <= j < |a| && a[j] == b[0];
    if i > 0 && j > 0 {
      NoCycle(a[0], b[0]);
    }
  }

  lemma NoCycle(f: File, g: File)
    ensures !(FileOrder(f, g) && FileOrder(g, f)) && !FileOrder(f, f)
  {
  }

  lemma TailSet(a: seq<File>)
    requires InFileOrder(a) && a != []
    ensures InFileOrder(a[1..]) && FileSet(a[1..]) == FileSet(a) - {a[0]}
  {
    NoCycle(a[0], a[0]);
    forall f
      ensures f in FileSet(a[1..]) <==> f in FileSet(a) - {a[0]}
    {
      if f in FileSet(a) && f != a[0] {
        var i :| 0 <= i < |a| && a[i] == f;
        assert a[1..][i - 1] == f;
      }
      if f in FileSet(a[1..]) {
        var i :| 0 <= i < |a| - 1 && a[1..][i] == f;
        assert FileOrder(a[0], a[i + 1]);
      }
    }
  }

  /** `lists` are what SaveTo makes of one level after each edit, starting from a builder of its own each time. */
  ghost predicate SavedEach(lists: seq<seq<File>>, edits: seq<FileEdit>, l: nat) {
    && |lists| == |edits| + 1
    && (forall i :: 0 <= i < |lists| ==> InFileOrder(lists[i]))
    && forall i :: 0 <= i < |edits| ==> FileSet(lists[i + 1]) == Saved(FileSet(lists[i]), Merge(NOTHING, edits[i], l))
  }

  /** The sorted list that one builder saves is the one that building version after version ends with. */
  lemma ReplayedListIs(lists: seq<seq<File>>, edits: seq<FileEdit>, l: nat, r: seq<File>)
    requires SavedEach(lists, edits, l) && NeverAddedTwice(Numbers(FileSet(lists[0])), edits, l)
    requires InFileOrder(r) && FileSet(r) == Saved(FileSet(lists[0]), MergeAll(NOTHING, edits, l))
    ensures r == lists[|edits|]
  {
    hide InFileOrder, Saved, Merge, MergeAll, ApplyOneByOne, NeverAddedTwice;
    ReplayIsOneByOne(FileSet(lists[0]), edits, l);
    ListsAreOneByOne(lists, edits, l, 0);
    assert edits[0..] == edits;
    OrderDeterminesList(r, lists[|edits|]);
  }

  lemma {:induction false} ListsAreOneByOne(lists: seq<seq<File>>, edits: seq<FileEdit>, l: nat, i: nat)
    requires SavedEach(lists, edits, l) && i <= |edits|
    ensures ApplyOneByOne(FileSet(lists[i]), edits[i..], l) == FileSet(lists[|edits|])
    decreases |edits| - i
  {
    hide InFileOrder, Saved, Merge;
    if i < |edits| {
      ListsAreOneByOne(lists, edits, l, i + 1);
      assert edits[i..][1..] == edits[i + 1..];
    }
  }

  // ---- the builder ---------------------------------------------------------------------------------------------

  /** std::set::insert with BySmallestKey: kept in file order, an equivalent element stays. */
  function InsertFile(fs: seq<File>, f: File): seq<File> {
    if fs == [] || FileOrder(f, fs[0]) then [f] + fs
    else if FileOrder(fs[0], f) then [fs[0]] + InsertFile(fs[1..], f)
    else fs
  }

  lemma {:induction false} InsertFileKeepsOrder(fs: seq<File>, f: File)
    requires InFileOrder(fs)
    requires forall g :: g in fs ==> g.number != f.number
    ensures InFileOrder(InsertFile(fs, f))
    ensures FileSet(InsertFile(fs, f)) == FileSet(fs) + {f}
  {
    if fs == [] {
    } else if FileOrder(f, fs[0]) {
      FrontOfOrder(fs, f);
    } else {
      assert fs[0] in fs;
      FileOrderTotal(fs[0], f);
      InsertFileKeepsOrder(fs[1..], f);
      var rest := InsertFile(fs[1..], f);
      assert fs == [fs[0]] + fs[1..];
      forall i | 0 <= i < |rest|
        ensures FileOrder(fs[0], rest[i])
      {
        assert rest[i] in FileSet(rest);
      }
    }
  }

  lemma FileOrderTotal(f: File, g: File)
    requires f.number != g.number
    ensures FileOrder(f, g) || FileOrder(g, f)
  {
  }

  lemma FrontOfOrder(fs: seq<File>, f: File)
    requires fs != [] && InFileOrder(fs) && FileOrder(f, fs[0])
    ensures InFileOrder([f] + fs)
  {
    forall i | 0 < i < |fs|
      ensures FileOrder(f, fs[i])
    {
      assert FileOrder(fs[0], fs[i]);
    }
  }

  ghost predicate NoRepeats(xs: seq<(nat, File)>) {
    forall i, j :: 0 <= i < j < |xs| && xs[i].0 == xs[j].0 ==> xs[i].1.number != xs[j].1.number
  }

  lemma DeleteOne(ds: set<(nat, nat)>, d: (nat, nat))
    ensures forall l: nat :: DeletedIn(ds + {d}, l) == DeletedIn(ds, l) + if d.0 == l then {d.1} else {}
  {
    forall l: nat
      ensures DeletedIn(ds + {d}, l) == DeletedIn(ds, l) + if d.0 == l then {d.1} else {}
    {
      forall n
        ensures n in DeletedIn(ds + {d}, l) <==> n in DeletedIn(ds, l) + if d.0 == l then {d.1} else {}
      {
        if n in DeletedIn(ds, l) || (d.0 == l && n == d.1) {
          assert (l, n) in ds + {d};
        }
      }
    }
  }

  lemma AddOne(xs: seq<(nat, File)>, i: nat)
    requires i < |xs|
    ensures forall l: nat :: AddedIn(xs[..i + 1], l) == AddedIn(xs[..i], l) + if xs[i].0 == l then {xs[i].1} else {}
    ensures forall l: nat :: Numbers(AddedIn(xs[..i + 1], l))
                          == Numbers(AddedIn(xs[..i], l)) + if xs[i].0 == l then {xs[i].1.number} else {}
  {
    assert xs[..i + 1] == xs[..i] + [xs[i]];
    forall l: nat
      ensures AddedIn(xs[..i + 1], l) == AddedIn(xs[..i], l) + if xs[i].0 == l then {xs[i].1} else {}
      ensures Numbers(AddedIn(xs[..i + 1], l))
           == Numbers(AddedIn(xs[..i], l)) + if xs[i].0 == l then {xs[i].1.number} else {}
    {
      var before, now := AddedIn(xs[..i], l), if xs[i].0 == l then {xs[i].1} else {};
      forall f | f in before + now
        ensures f in AddedIn(xs[..i + 1], l)
      {
        assert (l, f) in xs[..i + 1];
      }
      NumbersOfUnion(AddedIn(xs[..i], l), if xs[i].0 == l then {xs[i].1} else {});
      assert Numbers({xs[i].1}) == {xs[i].1.number};
    }
  }

  lemma NothingAdded(xs: seq<(nat, File)>)
    ensures forall l: nat :: AddedIn(xs[..0], l) == {} && Numbers(AddedIn(xs[..0], l)) == {}
  {
  }

  /** The number of the next file to add is not yet used in its level. */
  lemma FreshNumber(edit: FileEdit, i: nat, bs: seq<File>, xs: seq<File>)
    requires i < |edit.added| && NoRepeats(edit.added)
    requires Numbers(AddedAt(edit, edit.added[i].0)) !! Numbers(FileSet(bs)) + Numbers(FileSet(xs))
    ensures forall g :: g in FileSet(xs) + AddedIn(edit.added[..i], edit.added[i].0) ==>
              g.number != edit.added[i].1.number
  {
    var (l, f) := edit.added[i];
    assert (l, f) in edit.added;
    assert f in AddedAt(edit, l);
    assert f.number in Numbers(AddedAt(edit, l));
    forall g | g in FileSet(xs)
      ensures g.number != f.number
    {
      assert g.number in Numbers(FileSet(xs));
    }
    forall g | g in AddedIn(edit.added[..i], l)
      ensures g.number != f.number
    {
      var a :| a in edit.added[..i] && a.0 == l && a.1 == g;
      var j :| 0 <= j < i && edit.added[j] == a;
    }
  }

  lemma InsertFresh(fs: seq<File>, f: File, members: set<File>)
    requires InFileOrder(fs) && FileSet(fs) == members && forall g :: g in members ==> g.number != f.number
    ensures InFileOrder(InsertFile(fs, f)) && FileSet(InsertFile(fs, f)) == members + {f}
  {
    assert forall g :: g in fs ==> g in FileSet(fs);
    InsertFileKeepsOrder(fs, f);
  }

  class Builder {
    const base: Levels
    var deleted: seq<set<nat>>
    var added: seq<seq<File>>

    ghost predicate Valid()
      reads this
    {
      && |base| == |deleted| == |added| == NUM_LEVELS
      && (forall l :: 0 <= l < NUM_LEVELS ==> InFileOrder(base[l]) && InFileOrder(added[l]))
      && (forall l :: 0 <= l < NUM_LEVELS ==> Numbers(FileSet(base[l])) !! Numbers(FileSet(added[l])))
    }

    ghost function PendingAt(l: nat): Pending
      requires Valid() && l < NUM_LEVELS
      reads this
    {
      Pending(deleted[l], FileSet(added[l]))
    }

    constructor (base: Levels)
      requires |base| == NUM_LEVELS && forall l :: 0 <= l < NUM_LEVELS ==> InFileOrder(base[l])
      ensures Valid() && this.base == base
      ensures forall l :: 0 <= l < NUM_LEVELS ==> PendingAt(l) == NOTHING
    {
      this.base := base;
      deleted := seq(NUM_LEVELS, _ => {});
      added := seq(NUM_LEVELS, _ => []);
    }

    /** Apply: deletions first, then additions, which take their number off the deleted list again. */
    method Apply(edit: FileEdit)
      requires Valid() && LevelsInRange(edit) && NoRepeats(edit.added)
      requires forall l :: 0 <= l < NUM_LEVELS ==>
                 Numbers(AddedAt(edit, l)) !! Numbers(FileSet(base[l])) + Numbers(FileSet(added[l]))
      modifies this
      ensures Valid()
      ensures forall l :: 0 <= l < NUM_LEVELS ==> PendingAt(l) == Merge(old(PendingAt(l)), edit, l)
    {
      hide InFileOrder, Numbers;
      DeleteFiles(edit.deleted);
      AddFiles(edit);
    }

    method DeleteFiles(ds: set<(nat, nat)>)
      requires Valid() && forall d :: d in ds ==> d.0 < NUM_LEVELS
      modifies this`deleted
      ensures Valid()
      ensures forall l :: 0 <= l < NUM_LEVELS ==> deleted[l] == old(deleted)[l] + DeletedIn(ds, l)
    {
      var todo := ds;
      while todo != {}
        invariant todo <= ds && |deleted| == NUM_LEVELS
        invariant forall l :: 0 <= l < NUM_LEVELS ==> deleted[l] == old(deleted)[l] + DeletedIn(ds - todo, l)
        decreases todo
      {
        var d :| d in todo;
        DeleteOne(ds - todo, d);
        assert ds - (todo - {d}) == (ds - todo) + {d};
        deleted := deleted[d.0 := deleted[d.0] + {d.1}];
        todo := todo - {d};
      }
      assert ds - {} == ds;
    }

    method AddFiles(edit: FileEdit)
      requires Valid() && LevelsInRange(edit) && NoRepeats(edit.added)
      requires forall l :: 0 <= l < NUM_LEVELS ==>
                 Numbers(AddedAt(edit, l)) !! Numbers(FileSet(base[l])) + Numbers(FileSet(added[l]))
      modifies this
      ensures Valid()
      ensures forall l :: 0 <= l < NUM_LEVELS ==> deleted[l] == old(deleted)[l] - Numbers(AddedAt(edit, l))
      ensures forall l :: 0 <= l < NUM_LEVELS ==> FileSet(added[l]) == FileSet(old(added)[l]) + AddedAt(edit, l)
    {
      hide InFileOrder, InsertFile, Numbers, AddedIn, NoRepeats, FileSet;
      NothingAdded(edit.added);
      for i := 0 to |edit.added|
        invariant |deleted| == |added| == NUM_LEVELS
        invariant forall l :: 0 <= l < NUM_LEVELS ==>
                    deleted[l] == old(deleted)[l] - Numbers(AddedIn(edit.added[..i], l))
        invariant forall l :: 0 <= l < NUM_LEVELS ==> InFileOrder(added[l])
        invariant forall l :: 0 <= l < NUM_LEVELS ==>
                    FileSet(added[l]) == FileSet(old(added)[l]) + AddedIn(edit.added[..i], l)
      {
        var (l, f) := edit.added[i];
        AddOne(edit.added, i);
        FreshNumber(edit, i, base[l], old(added)[l]);
        InsertFresh(added[l], f, FileSet(old(added)[l]) + AddedIn(edit.added[..i], l));
        deleted := deleted[l := deleted[l] - {f.number}];
        added := added[l := InsertFile(added[l], f)];
      }
      assert edit.added[..|edit.added|] == edit.added;
      forall l | 0 <= l < NUM_LEVELS
        ensures Numbers(FileSet(base[l])) !! Numbers(FileSet(added[l]))
      {
        NumbersOfUnion(FileSet(old(added)[l]), AddedAt(edit, l));
      }
    }

    /** SaveTo for one level: the base files merged with the added ones, skipping deleted numbers. */
    method SaveLevel(l: nat) returns (r: seq<File>)
      requires Valid() && l < NUM_LEVELS
      ensures InFileOrder(r)
      ensures FileSet(r) == Saved(FileSet(base[l]), PendingAt(l))
    {
      hide Merging, FileOrder, InFileOrder, Numbers, Saved;
      var bs, xs, dead := base[l], added[l], deleted[l];
      var b, a := 0, 0;
      r := [];
      MergingStarts(bs, xs, dead);
      while a < |xs|
        invariant a <= |xs| && b <= |bs| && Merging(r, bs, b, xs, a, dead)
      {
        while b < |bs| && !FileOrder(xs[a], bs[b])
          invariant b <= |bs| && Merging(r, bs, b, xs, a, dead)
        {
          NumbersApart(bs, b, xs, a);
          FileOrderTotal(bs[b], xs[a]);
          TakeNext(r, bs, b, xs, a, dead);
          r := MaybeAddFile(r, bs[b], dead);
          b := b + 1;
        }
        MergingIsSymmetric(r, bs, b, xs, a, dead);
        TakeNext(r, xs, a, bs, b, dead);
        r := MaybeAddFile(r, xs[a], dead);
        a := a + 1;
        MergingIsSymmetric(r, xs, a, bs, b, dead);
      }
      while b < |bs|
        invariant b <= |bs| && Merging(r, bs, b, xs, |xs|, dead)
      {
        TakeNext(r, bs, b, xs, |xs|, dead);
        r := MaybeAddFile(r, bs[b], dead);
        b := b + 1;
      }
      MergingEnds(r, bs, xs, dead);
    }
  }

  function MaybeAddFile(r: seq<File>, f: File, dead: set<nat>): seq<File> {
    if f.number in dead then r else r + [f]
  }

  ghost function Alive(fs: set<File>, dead: set<nat>): set<File> {
    set f | f in fs && f.number !in dead
  }

  /** Everything in `r` comes before the next element of `fs`. */
  ghost predicate ComesBefore(r: seq<File>, fs: seq<File>, i: nat) {
    i < |fs| ==> forall k :: 0 <= k < |r| ==> FileOrder(r[k], fs[i])
  }

  /** `r` is the merge of the first `b` and `a` files of two lists, without the dead ones. */
  ghost predicate Merging(r: seq<File>, bs: seq<File>, b: nat, xs: seq<File>, a: nat, dead: set<nat>) {
    && b <= |bs| && a <= |xs|
    && InFileOrder(bs) && InFileOrder(xs) && InFileOrder(r)
    && Numbers(FileSet(bs)) !! Numbers(FileSet(xs))
    && FileSet(r) == Alive(FileSet(bs[..b]) + FileSet(xs[..a]), dead)
    && ComesBefore(r, bs, b) && ComesBefore(r, xs, a)
  }

  lemma MergingStarts(bs: seq<File>, xs: seq<File>, dead: set<nat>)
    requires InFileOrder(bs) && InFileOrder(xs) && Numbers(FileSet(bs)) !! Numbers(FileSet(xs))
    ensures Merging([], bs, 0, xs, 0, dead)
  {
  }

  lemma MergingEnds(r: seq<File>, bs: seq<File>, xs: seq<File>, dead: set<nat>)
    requires Merging(r, bs, |bs|, xs, |xs|, dead)
    ensures InFileOrder(r) && FileSet(r) == Saved(FileSet(bs), Pending(dead, FileSet(xs)))
  {
    assert bs[..|bs|] == bs && xs[..|xs|] == xs;
  }

  lemma MergingIsSymmetric(r: seq<File>, bs: seq<File>, b: nat, xs: seq<File>, a: nat, dead: set<nat>)
    requires Merging(r, bs, b, xs, a, dead)
    ensures Merging(r, xs, a, bs, b, dead)
  {
    assert FileSet(bs[..b]) + FileSet(xs[..a]) == FileSet(xs[..a]) + FileSet(bs[..b]);
  }

  lemma NumbersApart(bs: seq<File>, b: nat, xs: seq<File>, a: nat)
    requires b < |bs| && a < |xs| && Numbers(FileSet(bs)) !! Numbers(FileSet(xs))
    ensures bs[b].number != xs[a].number
  {
    assert bs[b] in FileSet(bs) && xs[a] in FileSet(xs);
    assert bs[b].number in Numbers(FileSet(bs)) && xs[a].number in Numbers(FileSet(xs));
  }

  lemma PushKeepsOrder(r: seq<File>, f: File)
    requires InFileOrder(r) && forall k :: 0 <= k < |r| ==> FileOrder(r[k], f)
    ensures InFileOrder(r + [f])
  {
  }

  lemma FileOrderTransitive(f: File, g: File, h: File)
    requires FileOrder(f, g) && FileOrder(g, h)
    ensures FileOrder(f, h)
  {
  }

  lemma TakeNext(r: seq<File>, fs: seq<File>, i: nat, gs: seq<File>, j: nat, dead: set<nat>)
    requires Merging(r, fs, i, gs, j, dead) && i < |fs|
    requires j < |gs| ==> FileOrder(fs[i], gs[j])
    ensures Merging(MaybeAddFile(r, fs[i], dead), fs, i + 1, gs, j, dead)
  {
    hide FileOrder;
    var f, r' := fs[i], MaybeAddFile(r, fs[i], dead);
    PushKeepsOrder(r, f);
    if i + 1 < |fs| {
      forall k | 0 <= k < |r|
        ensures FileOrder(r[k], fs[i + 1])
      {
        FileOrderTransitive(r[k], f, fs[i + 1]);
      }
    }
    assert fs[..i + 1] == fs[..i] + [f];
    assert FileSet(fs[..i + 1]) == FileSet(fs[..i]) + {f};
    assert FileSet(r + [f]) == FileSet(r) + {f};
  }
}
