/** What a directory walk must reach, said of chains of directory entries rather than of the walk. */
module WalkReach {
  import opened DirWalk
  import opened Wrappers

  /** A chain of directory entries, each listed by the directory before it. */
  predicate Descends(list: Engine, rel: string, ds: seq<FileInfo>)
    decreases |ds|
  {
    ds != [] ==>
      && list(rel).Success? && ds[0] in list(rel).value && ds[0].isDir
      && Descends(list, Join(rel, ds[0].name), ds[1..])
  }

  /** The directory such a chain ends in. */
  function End(rel: string, ds: seq<FileInfo>): string
    decreases |ds|
  {
    if ds == [] then rel else End(Join(rel, ds[0].name), ds[1..])
  }

  /** Every directory below `rel`, itself `depth` frames down, lists and is within the cap. */
  ghost predicate AllList(list: Engine, rel: string, depth: nat) {
    forall ds :: Descends(list, rel, ds) ==> list(End(rel, ds)).Success? && depth + |ds| <= MAX_WALK_DEPTH
  }

  /** Some directory below `rel` fails to list with that error, or is past the cap. */
  ghost predicate Stops(list: Engine, rel: string, depth: nat, err: WalkErr) {
    exists ds :: Descends(list, rel, ds) &&
      (list(End(rel, ds)) == Failure(err) || (err.DepthExceeded? && depth + |ds| > MAX_WALK_DEPTH))
  }

  /** An entry of some directory below `rel`. */
  ghost predicate Holds(list: Engine, rel: string, r: WalkResult) {
    exists ds :: Descends(list, rel, ds) && Lists(list, End(rel, ds), r)
  }

  predicate Lists(list: Engine, rel: string, r: WalkResult) {
    list(rel).Success? && r.info in list(rel).value && r.rel == Join(rel, r.info.name)
  }

  lemma Longer(list: Engine, rel: string, e: FileInfo, ds: seq<FileInfo>)
    requires list(rel).Success? && e in list(rel).value && e.isDir
    ensures Descends(list, rel, [e] + ds) <==> Descends(list, Join(rel, e.name), ds)
    ensures End(rel, [e] + ds) == End(Join(rel, e.name), ds) && |[e] + ds| == 1 + |ds|
  {
    assert ([e] + ds)[0] == e && ([e] + ds)[1..] == ds;
  }

  lemma StopsBelow(list: Engine, rel: string, depth: nat, e: FileInfo, err: WalkErr)
    requires list(rel).Success? && e in list(rel).value && e.isDir && Stops(list, Join(rel, e.name), depth + 1, err)
    ensures Stops(list, rel, depth, err)
  {
    var ds :| Descends(list, Join(rel, e.name), ds) &&
      (list(End(Join(rel, e.name), ds)) == Failure(err) || (err.DepthExceeded? && depth + 1 + |ds| > MAX_WALK_DEPTH));
    Longer(list, rel, e, ds);
  }

  lemma HoldsBelow(list: Engine, rel: string, e: FileInfo, r: WalkResult)
    requires list(rel).Success? && e in list(rel).value && e.isDir && Holds(list, Join(rel, e.name), r)
    ensures Holds(list, rel, r)
  {
    var ds :| Descends(list, Join(rel, e.name), ds) && Lists(list, End(Join(rel, e.name), ds), r);
    Longer(list, rel, e, ds);
  }

  lemma Here(list: Engine, rel: string, depth: nat)
    ensures Descends(list, rel, []) && End(rel, []) == rel
    ensures AllList(list, rel, depth) ==> list(rel).Success? && depth <= MAX_WALK_DEPTH
    ensures list(rel).Failure? ==> Stops(list, rel, depth, list(rel).error)
    ensures depth > MAX_WALK_DEPTH ==> Stops(list, rel, depth, DepthExceeded)
    ensures forall r :: Lists(list, rel, r) ==> Holds(list, rel, r)
  {
    assert Descends(list, rel, []);
    if AllList(list, rel, depth) { assert list(End(rel, [])).Success?; }
  }

  /** A walk of some of a directory's entries visits only what is there, and an error it ends in is that of a
      directory below that does not list or is past the cap. */
  lemma {:induction false} VisitsOnly(list: Engine, rel: string, entries: seq<FileInfo>, depth: nat)
    requires list(rel).Success? && forall e :: e in entries ==> e in list(rel).value
    ensures forall r :: r in Preorder(list, true, rel, entries, depth).out ==> Holds(list, rel, r)
    ensures var err := Preorder(list, true, rel, entries, depth).err; err.Some? ==> Stops(list, rel, depth, err.value)
    decreases MAX_WALK_DEPTH - depth, |entries|
  {
    if entries != [] {
      var e := entries[0];
      assert e in list(rel).value;
      Here(list, rel, depth);
      assert Lists(list, rel, WalkResult(Join(rel, e.name), e));
      BelowOnly(list, rel, e, depth);
      VisitsOnly(list, rel, entries[1..], depth);
    }
  }

  lemma {:induction false} BelowOnly(list: Engine, rel: string, e: FileInfo, depth: nat)
    requires list(rel).Success? && e in list(rel).value
    ensures forall r :: r in Below(list, true, rel, e, depth).out ==> Holds(list, rel, r)
    ensures var err := Below(list, true, rel, e, depth).err; err.Some? ==> Stops(list, rel, depth, err.value)
    decreases MAX_WALK_DEPTH - depth, 0
  {
    var child := Join(rel, e.name);
    if e.isDir {
      Here(list, child, depth + 1);
      if depth >= MAX_WALK_DEPTH {
        StopsBelow(list, rel, depth, e, DepthExceeded);
      } else if list(child).Failure? {
        StopsBelow(list, rel, depth, e, list(child).error);
      } else {
        VisitsOnly(list, child, list(child).value, depth + 1);
        var below := Below(list, true, rel, e, depth);
        if below.err.Some? { StopsBelow(list, rel, depth, e, below.err.value); }
        forall r | r in below.out ensures Holds(list, rel, r) { HoldsBelow(list, rel, e, r); }
      }
    }
  }

  /** A walk that ends without error visited everything there is, and everything lists within the cap. */
  lemma {:induction false} VisitsAll(list: Engine, rel: string, entries: seq<FileInfo>, depth: nat, ds: seq<FileInfo>)
    requires Preorder(list, true, rel, entries, depth).err.None? && depth <= MAX_WALK_DEPTH
    requires list(rel).Success? && list(rel).value == entries && Descends(list, rel, ds)
    ensures list(End(rel, ds)).Success? && depth + |ds| <= MAX_WALK_DEPTH
    ensures forall r :: Lists(list, End(rel, ds), r) ==> r in Preorder(list, true, rel, entries, depth).out
    decreases |ds|
  {
    if ds == [] {
      forall r | Lists(list, rel, r) ensures r in Preorder(list, true, rel, entries, depth).out {
        var i :| 0 <= i < |entries| && entries[i] == r.info;
        EntryVisited(list, rel, entries, depth, i);
      }
    } else {
      var i :| 0 <= i < |entries| && entries[i] == ds[0];
      EntryVisited(list, rel, entries, depth, i);
      var child := Join(rel, ds[0].name);
      VisitsAll(list, child, list(child).value, depth + 1, ds[1..]);
    }
  }

  lemma {:induction false} EntryVisited(list: Engine, rel: string, entries: seq<FileInfo>, depth: nat, i: nat)
    requires Preorder(list, true, rel, entries, depth).err.None? && i < |entries|
    ensures var out, below := Preorder(list, true, rel, entries, depth).out, Below(list, true, rel, entries[i], depth);
            && WalkResult(Join(rel, entries[i].name), entries[i]) in out && below.err.None?
            && forall r :: r in below.out ==> r in out
    decreases |entries|
  {
    if i > 0 { EntryVisited(list, rel, entries[1..], depth, i - 1); }
  }

  lemma StopsIsNotAll(list: Engine, rel: string, depth: nat, err: WalkErr)
    requires Stops(list, rel, depth, err)
    ensures !AllList(list, rel, depth)
  {
    var ds :| Descends(list, rel, ds) &&
      (list(End(rel, ds)) == Failure(err) || (err.DepthExceeded? && depth + |ds| > MAX_WALK_DEPTH));
  }

  /** A recursive walk ends without error if and only if every directory below the root lists and is within the cap;
      the error it ends in otherwise is that of one that does not; it visits nothing but what is there, and, if it
      ends without error, all of it. */
  lemma TreeReaches(list: Engine, root: string)
    ensures var v := Tree(list, true, root);
            && (v.err.None? <==> AllList(list, root, 1))
            && (v.err.Some? ==> Stops(list, root, 1, v.err.value))
            && (forall r :: r in v.out ==> Holds(list, root, r))
            && (v.err.None? ==> forall r :: Holds(list, root, r) ==> r in v.out)
  {
    var v := Tree(list, true, root);
    Here(list, root, 1);
    if list(root).Success? {
      VisitsOnly(list, root, list(root).value, 1);
      if v.err.None? {
        forall ds | Descends(list, root, ds)
          ensures list(End(root, ds)).Success? && 1 + |ds| <= MAX_WALK_DEPTH
          ensures forall r :: Lists(list, End(root, ds), r) ==> r in v.out
        {
          VisitsAll(list, root, list(root).value, 1, ds);
        }
      }
    }
    if v.err.Some? { StopsIsNotAll(list, root, 1, v.err.value); }
  }

  /** Without recursion the root's own entries are visited, in order, and nothing else is listed. */
  lemma {:induction false} OneLevel(list: Engine, rel: string, entries: seq<FileInfo>, depth: nat)
    ensures var v := Preorder(list, false, rel, entries, depth);
            && v.err.None? && |v.out| == |entries|
            && forall i :: 0 <= i < |entries| ==> v.out[i] == WalkResult(Join(rel, entries[i].name), entries[i])
    decreases |entries|
  {
    if entries != [] { OneLevel(list, rel, entries[1..], depth); }
  }

  // ---- Sorting a level changes none of this ------------------------------------------------------

  lemma {:induction false} SortKeeps(s: seq<FileInfo>)
    ensures multiset(SortByName(s)) == multiset(s)
  {
    if s != [] {
      SortKeeps(s[1..]);
      InsertPermutes(SortByName(s[1..]), s[0]);
      assert s == [s[0]] + s[1..];
    }
  }

  lemma SameLevel(list: Engine, rel: string, e: FileInfo)
    ensures ByName(list)(rel).Success? <==> list(rel).Success?
    ensures list(rel).Failure? ==> ByName(list)(rel) == Failure(list(rel).error)
    ensures list(rel).Success? ==> (e in ByName(list)(rel).value <==> e in list(rel).value)
  {
    if list(rel).Success? {
      SortKeeps(list(rel).value);
      assert e in ByName(list)(rel).value <==> e in multiset(SortByName(list(rel).value));
      assert e in list(rel).value <==> e in multiset(list(rel).value);
    }
  }

  lemma {:induction false} SameChains(list: Engine, rel: string, ds: seq<FileInfo>)
    ensures Descends(ByName(list), rel, ds) <==> Descends(list, rel, ds)
    decreases |ds|
  {
    if ds != [] {
      SameLevel(list, rel, ds[0]);
      SameChains(list, Join(rel, ds[0].name), ds[1..]);
    }
  }

  /** So the walk in name order fails if and only if some directory below the root does not list or is past the cap,
      and with the error of such a one. */
  lemma WalkFailsIff(list: Engine, root: string)
    ensures var v := Tree(ByName(list), true, root);
            && (v.err.None? <==> AllList(list, root, 1))
            && (v.err.Some? ==> Stops(list, root, 1, v.err.value))
  {
    var levels := ByName(list);
    TreeReaches(levels, root);
    forall ds ensures Descends(levels, root, ds) <==> Descends(list, root, ds) { SameChains(list, root, ds); }
    forall rel ensures levels(rel).Success? <==> list(rel).Success? { SameLevel(list, rel, FileInfo("", 0, false)); }
    var v := Tree(levels, true, root);
    if v.err.Some? {
      var ds :| Descends(levels, root, ds) &&
        (levels(End(root, ds)) == Failure(v.err.value) || (v.err.value.DepthExceeded? && 1 + |ds| > MAX_WALK_DEPTH));
      SameLevel(list, End(root, ds), FileInfo("", 0, false));
    }
  }

  /** And, when it does not fail, visits exactly the entries below the root. */
  lemma WalkVisitsAll(list: Engine, root: string, r: WalkResult)
    requires Tree(ByName(list), true, root).err.None?
    ensures r in Tree(ByName(list), true, root).out <==> Holds(list, root, r)
  {
    var levels := ByName(list);
    TreeReaches(levels, root);
    forall ds
      ensures Descends(levels, root, ds) && Lists(levels, End(root, ds), r) <==>
        Descends(list, root, ds) && Lists(list, End(root, ds), r)
    {
      SameChains(list, root, ds);
      SameLevel(list, End(root, ds), r.info);
    }
    assert Holds(levels, root, r) <==> Holds(list, root, r);
  }
}
