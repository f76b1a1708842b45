/** The iterative directory walk over an explicit frame stack, and the recursive preorder it must equal. */
module DirWalk {
  import opened Bytes
  import opened Wrappers

  datatype FileInfo = FileInfo(name: string, size: int, isDir: bool)

  datatype WalkErr = EngineFault(code: nat) | DepthExceeded | ContextDone

  /** The engine's single-level List at a fixed moment: entries in no particular order. */
  type Engine = string -> Result<seq<FileInfo>, WalkErr>

  const MAX_WALK_DEPTH: nat := 256

  datatype WalkResult = WalkResult(rel: string, info: FileInfo)

  /** The child's engine-relative path; the root contributes nothing. */
  function Join(rel: string, name: string): string {
    if rel == "." || rel == "" then name else rel + "/" + name
  }

  // ---- One sorted level --------------------------------------------------------------------------

  function InsertByName(s: seq<FileInfo>, e: FileInfo): seq<FileInfo> {
    if s == [] || Less(e.name, s[0].name) then [e] + s else [s[0]] + InsertByName(s[1..], e)
  }

  function SortByName(s: seq<FileInfo>): seq<FileInfo> {
    if s == [] then [] else InsertByName(SortByName(s[1..]), s[0])
  }

  ghost predicate NameSorted(s: seq<FileInfo>) {
    forall i, j :: 0 <= i < j < |s| ==> Less(s[i].name, s[j].name)
  }

  ghost predicate DistinctNames(s: seq<FileInfo>) {
    forall i, j :: 0 <= i < j < |s| ==> s[i].name != s[j].name
  }

  lemma {:induction false} InsertPermutes(s: seq<FileInfo>, e: FileInfo)
    ensures multiset(InsertByName(s, e)) == multiset(s) + multiset{e}
  {
    if s != [] && !Less(e.name, s[0].name) {
      InsertPermutes(s[1..], e);
      assert s == [s[0]] + s[1..];
    }
  }

  lemma {:induction false} InsertKeepsSorted(s: seq<FileInfo>, e: FileInfo)
    requires NameSorted(s) && forall i :: 0 <= i < |s| ==> s[i].name != e.name
    ensures NameSorted(InsertByName(s, e))
  {
    if s != [] {
      if Less(e.name, s[0].name) {
        forall j | 0 < j < |s| ensures Less(e.name, s[j].name) { LessTransitive(e.name, s[0].name, s[j].name); }
      } else {
        LessTotal(e.name, s[0].name);
        InsertKeepsSorted(s[1..], e);
        InsertPermutes(s[1..], e);
        var t := InsertByName(s[1..], e);
        forall j | 0 <= j < |t| ensures Less(s[0].name, t[j].name) {
          assert t[j] in multiset(t);
          assert t[j] in s[1..] || t[j] == e;
        }
      }
    }
  }

  /** Sorting one level is a permutation of it, strictly increasing in name. */
  lemma {:induction false} SortByNameSorts(s: seq<FileInfo>)
    requires DistinctNames(s)
    ensures NameSorted(SortByName(s)) && multiset(SortByName(s)) == multiset(s)
  {
    if s != [] {
      SortByNameSorts(s[1..]);
      var t := SortByName(s[1..]);
      InsertPermutes(t, s[0]);
      assert s == [s[0]] + s[1..];
      forall i | 0 <= i < |t| ensures t[i].name != s[0].name {
        assert t[i] in multiset(t);
        assert t[i] in s[1..];
      }
      InsertKeepsSorted(t, s[0]);
    }
  }

  /** listOneLevel. */
  function Level(list: Engine, rel: string): Result<seq<FileInfo>, WalkErr> {
    match list(rel)
    case Failure(e) => Failure(e)
    case Success(s) => Success(SortByName(s))
  }

  /** Every level in name order. */
  function ByName(list: Engine): Engine {
    rel => Level(list, rel)
  }

  // ---- The recursive preorder --------------------------------------------------------------------

  /** What a traversal visits, and the error that cuts it short. */
  datatype Visit = Visit(out: seq<WalkResult>, err: Option<WalkErr>)

  function Then(v: Visit, w: Visit): Visit {
    if v.err.Some? then v else Visit(v.out + w.out, w.err)
  }

  /** The preorder of some entries of directory rel, `depth` frames down; `levels` lists each directory in the
      order its entries are visited. */
  function Preorder(levels: Engine, recursive: bool, rel: string, entries: seq<FileInfo>, depth: nat): Visit
    decreases MAX_WALK_DEPTH - depth, |entries|
  {
    if entries == [] then Visit([], None)
    else
      Then(Then(Visit([WalkResult(Join(rel, entries[0].name), entries[0])], None),
                Below(levels, recursive, rel, entries[0], depth)),
           Preorder(levels, recursive, rel, entries[1..], depth))
  }

  /** Everything under one entry: nothing for a file or a one-level listing. */
  function Below(levels: Engine, recursive: bool, rel: string, e: FileInfo, depth: nat): Visit
    decreases MAX_WALK_DEPTH - depth, 0
  {
    var child := Join(rel, e.name);
    if !recursive || !e.isDir then Visit([], None)
    else if depth >= MAX_WALK_DEPTH then Visit([], Some(DepthExceeded))
    else
      match levels(child)
      case Failure(err) => Visit([], Some(err))
      case Success(kids) => Preorder(levels, recursive, child, kids, depth + 1)
  }

  function Tree(levels: Engine, recursive: bool, root: string): Visit {
    match levels(root)
    case Failure(err) => Visit([], Some(err))
    case Success(entries) => Preorder(levels, recursive, root, entries, 1)
  }

  /** Feeding a visit to a callback that may stop it: a stop ends the walk without error. */
  function Feed<S>(emit: (S, WalkResult) -> (S, bool), s: S, v: Visit): (S, Option<WalkErr>)
    decreases |v.out|
  {
    if v.out == [] then (s, v.err)
    else
      var (s', more) := emit(s, v.out[0]);
      if more then Feed(emit, s', Visit(v.out[1..], v.err)) else (s', None)
  }

  // ---- The iterative walk ------------------------------------------------------------------------

  datatype Frame = Frame(rel: string, entries: seq<FileInfo>, next: nat)

  predicate FramesOk(stack: seq<Frame>) {
    |stack| <= MAX_WALK_DEPTH && forall i :: 0 <= i < |stack| ==> stack[i].next <= |stack[i].entries|
  }

  /** What a stack of frames still has to visit, the top frame first. */
  function Pending(levels: Engine, recursive: bool, stack: seq<Frame>): Visit
    requires FramesOk(stack)
  {
    if stack == [] then Visit([], None)
    else
      var n := |stack|;
      var top := stack[n - 1];
      Then(Preorder(levels, recursive, top.rel, top.entries[top.next..], n), Pending(levels, recursive, stack[..n - 1]))
  }

  lemma ThenAssoc(a: Visit, b: Visit, c: Visit)
    ensures Then(Then(a, b), c) == Then(a, Then(b, c))
  {
  }

  /** Taking the top frame's next entry visits that entry and leaves the rest pending. */
  lemma PendingStep(levels: Engine, recursive: bool, stack: seq<Frame>)
    requires FramesOk(stack) && stack != [] && stack[|stack| - 1].next < |stack[|stack| - 1].entries|
    ensures var n := |stack|;
            var top := stack[n - 1];
            var e := top.entries[top.next];
            var rest := stack[n - 1 := top.(next := top.next + 1)];
            Pending(levels, recursive, stack) ==
            Then(Visit([WalkResult(Join(top.rel, e.name), e)], None),
                 Then(Below(levels, recursive, top.rel, e, n), Pending(levels, recursive, rest)))
  {
    var n := |stack|;
    var top := stack[n - 1];
    var e, tail := top.entries[top.next], top.entries[top.next + 1..];
    var rest := stack[n - 1 := top.(next := top.next + 1)];
    assert top.entries[top.next..][0] == e && top.entries[top.next..][1..] == tail;
    assert rest[..n - 1] == stack[..n - 1];
    var one := Visit([WalkResult(Join(top.rel, e.name), e)], None);
    var below, after := Below(levels, recursive, top.rel, e, n), Preorder(levels, recursive, top.rel, tail, n);
    var lower := Pending(levels, recursive, stack[..n - 1]);
    ThenAssoc(Then(one, below), after, lower);
    ThenAssoc(one, below, Then(after, lower));
  }

  lemma PendingPop(levels: Engine, recursive: bool, stack: seq<Frame>)
    requires FramesOk(stack) && stack != [] && stack[|stack| - 1].next == |stack[|stack| - 1].entries|
    ensures Pending(levels, recursive, stack) == Pending(levels, recursive, stack[..|stack| - 1])
  {
  }

  lemma PendingPush(levels: Engine, recursive: bool, stack: seq<Frame>, rel: string, e: FileInfo, kids: seq<FileInfo>)
    requires FramesOk(stack) && |stack| < MAX_WALK_DEPTH && recursive && e.isDir
    requires levels(Join(rel, e.name)) == Success(kids)
    ensures Pending(levels, recursive, stack + [Frame(Join(rel, e.name), kids, 0)]) ==
            Then(Below(levels, recursive, rel, e, |stack|), Pending(levels, recursive, stack))
  {
  }

  /** The stack once the top frame's next entry is taken: one frame deeper for a directory to descend, which may
      be refused by the depth cap or fail to list. */
  function Advance(levels: Engine, recursive: bool, stack: seq<Frame>): (r: Result<seq<Frame>, WalkErr>)
    requires FramesOk(stack) && stack != [] && stack[|stack| - 1].next < |stack[|stack| - 1].entries|
    ensures r.Success? ==> FramesOk(r.value)
  {
    var n := |stack|;
    var top := stack[n - 1];
    var e := top.entries[top.next];
    var moved := stack[n - 1 := top.(next := top.next + 1)];
    if !recursive || !e.isDir then Success(moved)
    else if n >= MAX_WALK_DEPTH then Failure(DepthExceeded)
    else
      match levels(Join(top.rel, e.name))
      case Failure(err) => Failure(err)
      case Success(kids) => Success(moved + [Frame(Join(top.rel, e.name), kids, 0)])
  }

  function PendingAfter(levels: Engine, recursive: bool, r: Result<seq<Frame>, WalkErr>): Visit
    requires r.Success? ==> FramesOk(r.value)
  {
    if r.Failure? then Visit([], Some(r.error)) else Pending(levels, recursive, r.value)
  }

  /** So a stack still has to visit the entry it takes next, and then what the advanced stack has to. */
  lemma PendingAdvance(levels: Engine, recursive: bool, stack: seq<Frame>)
    requires FramesOk(stack) && stack != [] && stack[|stack| - 1].next < |stack[|stack| - 1].entries|
    ensures var top := stack[|stack| - 1];
            var e := top.entries[top.next];
            Pending(levels, recursive, stack) ==
            Then(Visit([WalkResult(Join(top.rel, e.name), e)], None),
                 PendingAfter(levels, recursive, Advance(levels, recursive, stack)))
  {
    var n := |stack|;
    var top := stack[n - 1];
    var e := top.entries[top.next];
    var moved := stack[n - 1 := top.(next := top.next + 1)];
    PendingStep(levels, recursive, stack);
    if !recursive || !e.isDir {
      ThenNothing(Pending(levels, recursive, moved));
    } else if n < MAX_WALK_DEPTH && levels(Join(top.rel, e.name)).Success? {
      PendingPush(levels, recursive, moved, top.rel, e, levels(Join(top.rel, e.name)).value);
    }
  }

  lemma FeedStep<S>(emit: (S, WalkResult) -> (S, bool), s: S, r: WalkResult, v: Visit)
    ensures var (s', more) := emit(s, r);
            Feed(emit, s, Then(Visit([r], None), v)) == if more then Feed(emit, s', v) else (s', None)
  {
  }

  lemma ThenNothing(v: Visit)
    ensures Then(Visit([], None), v) == v
  {
  }

  lemma WholeTree(levels: Engine, recursive: bool, root: string, entries: seq<FileInfo>)
    requires levels(root) == Success(entries)
    ensures Pending(levels, recursive, [Frame(root, entries, 0)]) == Tree(levels, recursive, root)
  {
  }

  /** A traversal that sees its context done after k entries. */
  function CutShort(v: Visit, k: nat): Visit
    requires k <= |v.out|
  {
    Visit(v.out[..k], Some(ContextDone))
  }

  lemma {:induction false} FeedSnoc<S>(emit: (S, WalkResult) -> (S, bool), init: S, fed: seq<WalkResult>, r: WalkResult, e: WalkErr)
    requires Feed(emit, init, Visit(fed, Some(e))).1.Some?
    ensures var (s, more) := emit(Feed(emit, init, Visit(fed, Some(e))).0, r);
            Feed(emit, init, Visit(fed + [r], Some(e))) == if more then (s, Some(e)) else (s, None)
    decreases |fed|
  {
    if fed == [] {
      assert [r][1..] == [];
    } else {
      FeedSnoc(emit, emit(init, fed[0]).0, fed[1..], r, e);
      assert (fed + [r])[1..] == fed[1..] + [r];
    }
  }

  ghost predicate Interrupted<S(!new)>(emit: (S, WalkResult) -> (S, bool), init: S, v: Visit, s: S, err: Option<WalkErr>) {
    exists k :: 0 <= k <= |v.out| && (s, err) == Feed(emit, init, CutShort(v, k))
  }

  /** `fed` has gone to the callback without being stopped, which left it in state s, and `left` is still to go. */
  ghost predicate InStep<S(!new)>(
      emit: (S, WalkResult) -> (S, bool), init: S, tree: Visit, s: S, fed: seq<WalkResult>, left: Visit) {
    && tree == Visit(fed + left.out, left.err)
    && Feed(emit, init, Visit(fed, Some(ContextDone))) == (s, Some(ContextDone))
    && Feed(emit, init, tree) == Feed(emit, s, left)
  }

  lemma InStepCut<S(!new)>(
      emit: (S, WalkResult) -> (S, bool), init: S, tree: Visit, s: S, fed: seq<WalkResult>, left: Visit)
    requires InStep(emit, init, tree, s, fed, left)
    ensures Interrupted(emit, init, tree, s, Some(ContextDone))
  {
    assert CutShort(tree, |fed|) == Visit(fed, Some(ContextDone));
  }

  lemma InStepNext<S(!new)>(
      emit: (S, WalkResult) -> (S, bool), init: S, tree: Visit, s: S, fed: seq<WalkResult>, r: WalkResult, left: Visit)
    requires InStep(emit, init, tree, s, fed, Then(Visit([r], None), left))
    ensures var (s', more) := emit(s, r);
            if more then InStep(emit, init, tree, s', fed + [r], left) else Feed(emit, init, tree) == (s', None)
  {
    FeedStep(emit, s, r, left);
    FeedSnoc(emit, init, fed, r, ContextDone);
    assert fed + ([r] + left.out) == fed + [r] + left.out;
  }

  /** walk: an explicit stack, capped at MAX_WALK_DEPTH frames, with no recursion. `done(n)` is what the n-th check
      of the context finds. */
  method Walk<S(!new)>(list: Engine, root: string, recursive: bool, emit: (S, WalkResult) -> (S, bool), init: S, done: nat -> bool)
    returns (s: S, err: Option<WalkErr>)
    ensures (s, err) == Feed(emit, init, Tree(ByName(list), recursive, root)) ||
      ((exists n :: done(n)) && err == Some(ContextDone) && Interrupted(emit, init, Tree(ByName(list), recursive, root), s, err))
  {
    s := init;
    var levels := ByName(list);
    var first := levels(root);
    if first.Failure? { return s, Some(first.error); }
    var stack, n := [Frame(root, first.value, 0)], 0;
    WholeTree(levels, recursive, root, first.value);
    ghost var tree := Tree(levels, recursive, root);
    ghost var fed: seq<WalkResult>, left := [], tree;
    assert tree.out == [] + tree.out;
    while stack != []
      invariant FramesOk(stack) && left == Pending(levels, recursive, stack) && n >= 0
      invariant InStep(emit, init, tree, s, fed, left)
      decreases |left.out|, |stack|
    {
      if done(n) {
        InStepCut(emit, init, tree, s, fed, left);
        return s, Some(ContextDone);
      }
      n := n + 1;
      var top := stack[|stack| - 1];
      if top.next >= |top.entries| {
        PendingPop(levels, recursive, stack);
        stack := stack[..|stack| - 1];
        continue;
      }
      var e := top.entries[top.next];
      var visited := WalkResult(Join(top.rel, e.name), e);
      PendingAdvance(levels, recursive, stack);
      var next := Advance(levels, recursive, stack);
      left := PendingAfter(levels, recursive, next);
      InStepNext(emit, init, tree, s, fed, visited, left);
      fed := fed + [visited];
      var result := emit(s, visited);
      s := result.0;
      if !result.1 { return s, None; }
      if next.Failure? { return s, Some(next.error); }
      stack := next.value;
    }
    err := None;
  }
}
