/** The north list's reconcile: every engine file without a handle is given one, through EnsureObject. */
module Reconcile {
  import opened DirWalk
  import opened HandleLog
  import opened HandleRuns
  import opened HandleStore
  import opened LineLog
  import opened Paths
  import opened Seqs
  import opened Wrappers

  /** What the world supplies to the n-th EnsureObject of a reconcile. */
  datatype Draw = Draw(cancelled: bool, mint: Mint, fault: Fault)

  function EnsureOp(scope: string, r: WalkResult, d: Draw): Op {
    Op.Ensure(d.cancelled, EnsureInput(scope, r.rel, PathBase(r.rel), "", r.info.size, ""), d.mint, d.fault)
  }

  function Files(out: seq<WalkResult>): nat {
    if out == [] then 0 else Files(out[..|out| - 1]) + (if out[|out| - 1].info.isDir then 0 else 1)
  }

  /** One EnsureObject per file visited, with the draws in order; directories are only descended. */
  function Ops(scope: string, out: seq<WalkResult>, draws: nat -> Draw): seq<Op> {
    if out == [] then []
    else
      var init, r := out[..|out| - 1], out[|out| - 1];
      Ops(scope, init, draws) + (if r.info.isDir then [] else [EnsureOp(scope, r, draws(Files(init)))])
  }

  /** What the entries visited so far have made of the store. */
  ghost function Reached(c: Codec, s: Store, scope: string, out: seq<WalkResult>, draws: nat -> Draw): Store {
    Run(c, s, Ops(scope, out, draws))
  }

  lemma {:induction false} RunSnoc(c: Codec, s: Store, ops: seq<Op>, op: Op)
    ensures Run(c, s, ops + [op]) == Next(c, Run(c, s, ops), op)
    decreases |ops|
  {
    if ops == [] {
      assert ops + [op] == [op] && [op][1..] == [];
    } else {
      RunSnoc(c, Next(c, s, ops[0]), ops[1..], op);
      assert (ops + [op])[1..] == ops[1..] + [op];
    }
  }

  lemma ReachedSnoc(c: Codec, s: Store, scope: string, out: seq<WalkResult>, r: WalkResult, draws: nat -> Draw)
    ensures Reached(c, s, scope, out + [r], draws) ==
      if r.info.isDir then Reached(c, s, scope, out, draws)
      else Next(c, Reached(c, s, scope, out, draws), EnsureOp(scope, r, draws(Files(out))))
    ensures Files(out + [r]) == Files(out) + (if r.info.isDir then 0 else 1)
  {
    SnocPrefix(out, r);
    AppendNothing(Ops(scope, out, draws));
    if !r.info.isDir { RunSnoc(c, s, Ops(scope, out, draws), EnsureOp(scope, r, draws(Files(out)))); }
  }

  /** One visited entry: mint on first sight for a file, tolerating any error; nothing for a directory. */
  method Touch(store: DiskStore, scope: string, r: WalkResult, draws: nat -> Draw, n: nat, ghost s0: Store, ghost fed: seq<WalkResult>)
    returns (n': nat)
    requires n == Files(fed) && store.State() == Reached(store.codec, s0, scope, fed, draws)
    modifies store
    ensures n' == Files(fed + [r]) && store.State() == Reached(store.codec, s0, scope, fed + [r], draws)
  {
    ReachedSnoc(store.codec, s0, scope, fed, r, draws);
    if r.info.isDir { return n; }
    var d := draws(n);
    var _ := store.EnsureObject(
      d.cancelled, EnsureInput(scope, r.rel, PathBase(r.rel), "", r.info.size, ""), d.mint, d.fault);
    return n + 1;
  }

  /** reconcileEngineNamespace: an explicit stack over the unsorted listings, stopping quietly at a listing error,
      the depth cap or a context found done. What it does to the store is one EnsureObject for each file among the
      first `k` entries of the recursive preorder, which are all of them unless the context is done. */
  method ReconcileEngineNamespace(store: DiskStore, list: Engine, scope: string, draws: nat -> Draw, done: nat -> bool)
    returns (ghost k: nat)
    modifies store
    ensures k <= |Tree(list, true, ".").out|
    ensures store.State() == Reached(store.codec, old(store.State()), scope, Tree(list, true, ".").out[..k], draws)
    ensures (forall i :: !done(i)) ==> k == |Tree(list, true, ".").out|
  {
    ghost var tree, s0 := Tree(list, true, "."), store.State();
    var first := list(".");
    if first.Failure? { return 0; }
    var stack, n, checks := [Frame(".", first.value, 0)], 0, 0;
    WholeTree(list, true, ".", first.value);
    ghost var fed: seq<WalkResult>, left := [], Pending(list, true, stack);
    while stack != []
      invariant FramesOk(stack) && left == Pending(list, true, stack) && tree.out == fed + left.out
      invariant n == Files(fed) && store.State() == Reached(store.codec, s0, scope, fed, draws) && checks >= 0
      decreases |left.out|, |stack|
    {
      if done(checks) {
        TakeFirst(fed, left.out);
        return |fed|;
      }
      checks := checks + 1;
      var top := stack[|stack| - 1];
      if top.next >= |top.entries| {
        PendingPop(list, true, stack);
        stack := stack[..|stack| - 1];
        continue;
      }
      var e := top.entries[top.next];
      var visited := WalkResult(Join(top.rel, e.name), e);
      PendingAdvance(list, true, stack);
      var next := Advance(list, true, stack);
      left := PendingAfter(list, true, next);
      n := Touch(store, scope, visited, draws, n, s0, fed);
      Assoc(fed, [visited], left.out);
      fed := fed + [visited];
      if next.Failure? { break; }
      stack := next.value;
    }
    TakeFirst(fed, left.out);
    AppendNothing(fed);
    return |fed|;
  }

  // ---- Keys that already have an answer ----------------------------------------------------------

  /** The ref has a live indexed handle, or is masked by a delete. */
  predicate Handled(p: Projection, key: RefKey) {
    key in p.tombstones || (key in p.refIndex && p.refIndex[key] in p.recs)
  }

  /** Nothing about the ref changed: its handle, its mask, and the records under it. */
  ghost predicate SameUnder(p: Projection, q: Projection, key: RefKey) {
    && (key in p.tombstones <==> key in q.tombstones)
    && (key in p.refIndex <==> key in q.refIndex) && (key in p.refIndex ==> p.refIndex[key] == q.refIndex[key])
    && (forall id :: id in p.recs ==> id in q.recs && q.recs[id] == p.recs[id])
    && (forall id :: id in q.recs && KeyOf(q.recs[id]) == key ==> id in p.recs)
  }

  predicate AllEnsure(ops: seq<Op>) {
    forall i :: 0 <= i < |ops| ==> ops[i].Ensure?
  }

  lemma EnsureKeepsHandled(c: Codec, s: Store, op: Op, key: RefKey)
    requires op.Ensure? && EnvOk(c, s, op) && Handled(s.view, key)
    ensures Handled(Next(c, s, op).view, key) && SameUnder(s.view, Next(c, s, op).view, key)
  {
  }

  /** However many EnsureObjects run, with whatever faults, a handled ref keeps its handle and gets no second one. */
  lemma {:induction false} HandledKept(c: Codec, s: Store, ops: seq<Op>, key: RefKey)
    requires AllEnsure(ops) && RunOk(c, s, ops) && Handled(s.view, key)
    ensures Handled(Run(c, s, ops).view, key) && SameUnder(s.view, Run(c, s, ops).view, key)
    decreases |ops|
  {
    if ops != [] {
      EnsureKeepsHandled(c, s, ops[0], key);
      HandledKept(c, Next(c, s, ops[0]), ops[1..], key);
    }
  }

  predicate AllHandled(p: Projection, ops: seq<Op>) {
    forall i :: 0 <= i < |ops| ==> ops[i].Ensure? && Handled(p, EnsureKey(ops[i].ensure))
  }

  predicate FaultFree(ops: seq<Op>) {
    forall i :: 0 <= i < |ops| ==> ops[i].Ensure? && !ops[i].cancelled && ops[i].fault.NoFault?
  }

  /** EnsureObjects of handled refs change nothing at all, whatever the world supplies. */
  lemma {:induction false} HandledIsSilent(c: Codec, s: Store, ops: seq<Op>)
    requires AllHandled(s.view, ops)
    ensures Run(c, s, ops) == s
  {
    if ops != [] {
      assert Handled(s.view, EnsureKey(ops[0].ensure));
      assert Next(c, s, ops[0]) == s;
      HandledIsSilent(c, s, ops[1..]);
    }
  }

  /** A fault-free run of EnsureObjects on a healthy store leaves every ref it names handled. */
  lemma {:induction false} FaultFreeHandles(c: Codec, s: Store, ops: seq<Op>)
    requires FaultFree(ops) && RunOk(c, s, ops) && !s.failed && !s.closed
    ensures AllHandled(Run(c, s, ops).view, ops)
    decreases |ops|
  {
    if ops != [] {
      var s', key := Next(c, s, ops[0]), EnsureKey(ops[0].ensure);
      assert Handled(s'.view, key);
      HandledKept(c, s', ops[1..], key);
      FaultFreeHandles(c, s', ops[1..]);
      assert forall i :: 1 <= i < |ops| ==> ops[i] == ops[1..][i - 1];
    }
  }

  // ---- Which files a reconcile reaches -----------------------------------------------------------

  function PathTo(rel: string, names: seq<string>): string
    decreases |names|
  {
    if names == [] then rel else PathTo(Join(rel, names[0]), names[1..])
  }

  /** The names lead from these entries of directory rel, through directories, to a file. */
  ghost predicate IsFile(list: Engine, rel: string, entries: seq<FileInfo>, names: seq<string>)
    decreases |names|
  {
    && names != []
    && exists i :: 0 <= i < |entries| && entries[i].name == names[0] && LeadsOn(list, rel, entries[i], names)
  }

  ghost predicate LeadsOn(list: Engine, rel: string, e: FileInfo, names: seq<string>)
    requires names != []
    decreases |names|, 0
  {
    if |names| == 1 then !e.isDir
    else
      var child := Join(rel, e.name);
      e.isDir && list(child).Success? && IsFile(list, child, list(child).value, names[1..])
  }

  ghost predicate FileVisited(out: seq<WalkResult>, path: string) {
    exists i :: 0 <= i < |out| && out[i].rel == path && !out[i].info.isDir
  }

  lemma VisitedThen(v: Visit, w: Visit, path: string)
    requires v.err.None?
    requires FileVisited(v.out, path) || FileVisited(w.out, path)
    ensures FileVisited(Then(v, w).out, path)
  {
    var out := v.out + w.out;
    if FileVisited(v.out, path) {
      var i :| 0 <= i < |v.out| && v.out[i].rel == path && !v.out[i].info.isDir;
      assert out[i] == v.out[i];
    } else {
      var i :| 0 <= i < |w.out| && w.out[i].rel == path && !w.out[i].info.isDir;
      assert out[|v.out| + i] == w.out[i];
    }
  }

  /** A preorder that ends without error has visited every file under its entries. */
  lemma {:induction false} EveryFileVisited(list: Engine, rel: string, entries: seq<FileInfo>, depth: nat, names: seq<string>)
    requires Preorder(list, true, rel, entries, depth).err.None? && IsFile(list, rel, entries, names)
    ensures FileVisited(Preorder(list, true, rel, entries, depth).out, PathTo(rel, names))
    decreases |names|, |entries|
  {
    var e, tail := entries[0], entries[1..];
    var one := Visit([WalkResult(Join(rel, e.name), e)], None);
    var below := Below(list, true, rel, e, depth);
    if e.name == names[0] && LeadsOn(list, rel, e, names) {
      if |names| == 1 {
        assert one.out[0].rel == PathTo(rel, names);
      } else {
        EveryFileVisited(list, Join(rel, e.name), list(Join(rel, e.name)).value, depth + 1, names[1..]);
      }
      VisitedThen(one, below, PathTo(rel, names));
    } else {
      var i :| 0 <= i < |entries| && entries[i].name == names[0] && LeadsOn(list, rel, entries[i], names);
      assert tail[i - 1] == entries[i];
      EveryFileVisited(list, rel, tail, depth, names);
    }
    VisitedThen(Then(one, below), Preorder(list, true, rel, tail, depth), PathTo(rel, names));
  }

  lemma {:induction false} OpsShape(scope: string, out: seq<WalkResult>, draws: nat -> Draw)
    ensures AllEnsure(Ops(scope, out, draws))
    ensures (forall m: nat :: !draws(m).cancelled && draws(m).fault.NoFault?) ==> FaultFree(Ops(scope, out, draws))
  {
    if out != [] { OpsShape(scope, out[..|out| - 1], draws); }
  }

  function KeyAt(scope: string, path: string): RefKey {
    RefKey(scope, NormalizeRef(path))
  }

  /** Two reconciles of one visit name the same refs in the same order, and every file visited is among them. */
  lemma {:induction false} OpsKeys(scope: string, out: seq<WalkResult>, draws: nat -> Draw, draws': nat -> Draw)
    ensures var ops, ops' := Ops(scope, out, draws), Ops(scope, out, draws');
      |ops| == |ops'| && forall i :: 0 <= i < |ops| ==>
        ops[i].Ensure? && ops'[i].Ensure? && EnsureKey(ops[i].ensure) == EnsureKey(ops'[i].ensure)
  {
    if out != [] { OpsKeys(scope, out[..|out| - 1], draws, draws'); }
  }

  lemma {:induction false} FileNamed(scope: string, out: seq<WalkResult>, draws: nat -> Draw, k: nat) returns (i: nat)
    requires k < |out| && !out[k].info.isDir
    ensures var ops := Ops(scope, out, draws);
      && i < |ops| && ops[i] == EnsureOp(scope, out[k], draws(i)) && EnsureKey(ops[i].ensure) == KeyAt(scope, out[k].rel)
      && i == Files(out[..k])
  {
    OpsCount(scope, out[..k], draws);
    if k == |out| - 1 {
      i := |Ops(scope, out[..k], draws)|;
    } else {
      i := FileNamed(scope, out[..|out| - 1], draws, k);
      assert out[..|out| - 1][..k] == out[..k];
    }
  }

  lemma {:induction false} OpsCount(scope: string, out: seq<WalkResult>, draws: nat -> Draw)
    ensures |Ops(scope, out, draws)| == Files(out)
  {
    if out != [] { OpsCount(scope, out[..|out| - 1], draws); }
  }

  /** Every operation is the one of some file visited. */
  lemma {:induction false} OpFrom(scope: string, out: seq<WalkResult>, draws: nat -> Draw, i: nat) returns (j: nat)
    requires i < |Ops(scope, out, draws)|
    ensures j < |out| && !out[j].info.isDir && Files(out[..j]) == i
    ensures Ops(scope, out, draws)[i] == EnsureOp(scope, out[j], draws(i))
  {
    var init := out[..|out| - 1];
    OpsCount(scope, init, draws);
    if i < |Ops(scope, init, draws)| {
      j := OpFrom(scope, init, draws, i);
      assert init[..j] == out[..j];
    } else {
      j := |out| - 1;
    }
  }

  // ---- The reconcile theorems --------------------------------------------------------------------

  ghost function Reconciled(c: Codec, s: Store, list: Engine, scope: string, draws: nat -> Draw): Store {
    Reached(c, s, scope, Tree(list, true, ".").out, draws)
  }

  /** After a fault-free reconcile of a tree within the depth cap, every engine file has a live handle under its ref
      or that ref is masked by a delete. */
  lemma ReconcileCovers(c: Codec, s: Store, list: Engine, scope: string, draws: nat -> Draw, names: seq<string>)
    requires !s.failed && !s.closed && Tree(list, true, ".").err.None?
    requires RunOk(c, s, Ops(scope, Tree(list, true, ".").out, draws))
    requires forall m: nat :: !draws(m).cancelled && draws(m).fault.NoFault?
    requires IsFile(list, ".", list(".").value, names)
    ensures Handled(Reconciled(c, s, list, scope, draws).view, KeyAt(scope, PathTo(".", names)))
  {
    var out := Tree(list, true, ".").out;
    var ops := Ops(scope, out, draws);
    EveryFileVisited(list, ".", list(".").value, 1, names);
    var k :| 0 <= k < |out| && out[k].rel == PathTo(".", names) && !out[k].info.isDir;
    OpsShape(scope, out, draws);
    FaultFreeHandles(c, s, ops);
    var i := FileNamed(scope, out, draws, k);
  }

  lemma EnsureMints(c: Codec, s: Store, op: Op)
    requires op.Ensure? && !op.cancelled && op.fault.NoFault? && !s.failed && !s.closed && EnvOk(c, s, op)
    requires !Handled(s.view, EnsureKey(op.ensure))
    ensures var p, key, id := Next(c, s, op).view, EnsureKey(op.ensure), op.mint.id;
            && Handled(p, key) && key in p.refIndex && p.refIndex[key] == id
            && id in p.recs && p.recs[id] == EnsureRecord(op.ensure, op.mint)
  {
  }

  lemma EnsureElsewhere(c: Codec, s: Store, op: Op, key: RefKey)
    requires op.Ensure? && EnvOk(c, s, op) && Consistent(s.view) && EnsureKey(op.ensure) != key && !Handled(s.view, key)
    ensures Consistent(Next(c, s, op).view) && !Handled(Next(c, s, op).view, key)
  {
    if Decide(s, op).Write? {
      DecidedAdmissible(c, s, op);
      ApplyConsistent(s.view, Decide(s, op).entry);
    }
  }

  /** The first fault-free EnsureObject of an unhandled ref mints its record, which the rest of the run keeps. */
  lemma {:induction false} FirstMints(c: Codec, s: Store, ops: seq<Op>, i: nat)
    requires FaultFree(ops) && RunOk(c, s, ops) && Consistent(s.view) && !s.failed && !s.closed && i < |ops|
    requires !Handled(s.view, EnsureKey(ops[i].ensure))
    requires forall j :: 0 <= j < i ==> EnsureKey(ops[j].ensure) != EnsureKey(ops[i].ensure)
    ensures var p, key, id := Run(c, s, ops).view, EnsureKey(ops[i].ensure), ops[i].mint.id;
            key in p.refIndex && p.refIndex[key] == id && id in p.recs && p.recs[id] == EnsureRecord(ops[i].ensure, ops[i].mint)
    decreases |ops|
  {
    var s', key := Next(c, s, ops[0]), EnsureKey(ops[i].ensure);
    if i == 0 {
      EnsureMints(c, s, ops[0]);
      HandledKept(c, s', ops[1..], key);
    } else {
      EnsureElsewhere(c, s, ops[0], key);
      assert ops[1..][i - 1] == ops[i] && forall j :: 0 <= j < i - 1 ==> ops[1..][j] == ops[j + 1];
      FirstMints(c, s', ops[1..], i - 1);
    }
  }

  /** The handle a fault-free reconcile gives a file that had none: the file's own path, last component and size,
      under the id and timestamp drawn for it. */
  lemma ReconcileMints(c: Codec, s: Store, list: Engine, scope: string, draws: nat -> Draw, k: nat)
    requires Consistent(s.view) && !s.failed && !s.closed
    requires RunOk(c, s, Ops(scope, Tree(list, true, ".").out, draws))
    requires forall m: nat :: !draws(m).cancelled && draws(m).fault.NoFault?
    requires var out := Tree(list, true, ".").out;
             && k < |out| && !out[k].info.isDir && !Handled(s.view, KeyAt(scope, out[k].rel))
             && forall j :: 0 <= j < k && !out[j].info.isDir ==> KeyAt(scope, out[j].rel) != KeyAt(scope, out[k].rel)
    ensures var r, p := Tree(list, true, ".").out[k], Reconciled(c, s, list, scope, draws).view;
            var m := draws(Files(Tree(list, true, ".").out[..k])).mint;
            && KeyAt(scope, r.rel) in p.refIndex && p.refIndex[KeyAt(scope, r.rel)] == m.id && m.id in p.recs
            && p.recs[m.id] == Record(m.id, scope, r.rel, PathBase(r.rel), "", r.info.size, m.now, "", "")
  {
    var out := Tree(list, true, ".").out;
    var ops := Ops(scope, out, draws);
    var i := FileNamed(scope, out, draws, k);
    OpsShape(scope, out, draws);
    forall j | 0 <= j < i ensures EnsureKey(ops[j].ensure) != EnsureKey(ops[i].ensure) {
      var f := OpFrom(scope, out, draws, j);
      if f > k { FilesGrow(out, k, f); }
    }
    FirstMints(c, s, ops, i);
  }

  lemma {:induction false} FilesGrow(out: seq<WalkResult>, k: nat, f: nat)
    requires k <= f <= |out|
    ensures Files(out[..k]) <= Files(out[..f])
    decreases f
  {
    if k < f {
      FilesGrow(out, k, f - 1);
      assert out[..f][..f - 1] == out[..f - 1];
    }
  }

  /** An immediate second reconcile changes nothing: no line is appended, whatever the world supplies to it. */
  lemma SecondReconcileSilent(c: Codec, s: Store, list: Engine, scope: string, draws: nat -> Draw, draws': nat -> Draw)
    requires !s.failed && !s.closed
    requires RunOk(c, s, Ops(scope, Tree(list, true, ".").out, draws))
    requires forall m: nat :: !draws(m).cancelled && draws(m).fault.NoFault?
    ensures var s' := Reconciled(c, s, list, scope, draws);
            Reconciled(c, s', list, scope, draws') == s'
  {
    var out := Tree(list, true, ".").out;
    var ops, ops' := Ops(scope, out, draws), Ops(scope, out, draws');
    OpsShape(scope, out, draws);
    FaultFreeHandles(c, s, ops);
    OpsKeys(scope, out, draws, draws');
    HandledIsSilent(c, Run(c, s, ops), ops');
  }

  /** An object just recorded by create keeps that handle through any reconcile, which adds no second one. */
  lemma CreateThenReconcile(c: Codec, s: Store, put: Op, list: Engine, scope: string, draws: nat -> Draw)
    requires put.Put? && Reply(s, put).GotRecord?
    requires RunOk(c, Next(c, s, put), Ops(scope, Tree(list, true, ".").out, draws))
    ensures var s1 := Next(c, s, put);
            var s2 := Reconciled(c, s1, list, scope, draws);
            var rec := Reply(s, put).rec;
            && rec.fileID in s2.view.recs && s2.view.recs[rec.fileID] == rec
            && KeyOf(rec) in s2.view.refIndex && s2.view.refIndex[KeyOf(rec)] == rec.fileID
            && SameUnder(s1.view, s2.view, KeyOf(rec))
  {
    var ops := Ops(scope, Tree(list, true, ".").out, draws);
    OpsShape(scope, Tree(list, true, ".").out, draws);
    HandledKept(c, Next(c, s, put), ops, KeyOf(Reply(s, put).rec));
  }

  // ---- The file a create wrote, in the walk ------------------------------------------------------

  lemma JoinBelow(above: seq<string>, c: string)
    requires above != [] && AllPlain(above)
    ensures Join(JoinSlash(above), c) == JoinSlash(above + [c])
  {
    CleanPlain(above);
    JoinConcat(above, [c]);
    assert JoinSlash([c]) == c;
    if |above| > 1 {
      JoinConcat([above[0]], above[1..]);
      assert [above[0]] + above[1..] == above;
    }
  }

  lemma {:induction false} PathToJoined(above: seq<string>, cs: seq<string>)
    requires above != [] && AllPlain(above) && AllPlain(cs)
    ensures PathTo(JoinSlash(above), cs) == JoinSlash(above + cs)
    decreases |cs|
  {
    if cs == [] {
      AppendNothing(above);
    } else {
      JoinBelow(above, cs[0]);
      PathToJoined(above + [cs[0]], cs[1..]);
      assert above + [cs[0]] + cs[1..] == above + cs;
    }
  }

  /** The walk reaches the file of plain components under the path they spell. */
  lemma PathToPlain(cs: seq<string>)
    requires AllPlain(cs) && cs != []
    ensures PathTo(".", cs) == JoinSlash(cs) && NormalizeRef(JoinSlash(cs)) == JoinSlash(cs)
  {
    PathToJoined([cs[0]], cs[1..]);
    assert [cs[0]] + cs[1..] == cs;
    CleanPlain(cs);
  }

  /** The ref a create writes to and records: the wire path, below the deployment's subtree if it has one. */
  function CreateRef(subtree: string, wire: string): string
    requires CanonicalizeCreatePath(wire).Some?
  {
    var canon := CanonicalizeCreatePath(wire).value;
    if subtree == "" then canon else PathJoin(subtree, canon)
  }

  lemma CreateRefInWalk(subtree: string, wire: string) returns (names: seq<string>)
    requires CleanSubtree(subtree) && CanonicalizeCreatePath(wire).Some?
    ensures names != [] && AllPlain(names) && CreateRef(subtree, wire) == PathTo(".", names)
    ensures NormalizeRef(CreateRef(subtree, wire)) == CreateRef(subtree, wire)
  {
    var cs := CreatePathPlain(wire);
    names := Base(subtree) + cs;
    if subtree == "" {
      assert names == cs;
    } else {
      SplitNoSlashes(subtree);
      JoinedBelow(subtree, cs);
      JoinConcat(Base(subtree), cs);
    }
    PathToPlain(names);
  }

  /** id is the one record under the ref. */
  ghost predicate OneRecord(p: Projection, key: RefKey, id: string) {
    forall j :: j in p.recs && KeyOf(p.recs[j]) == key <==> j == id
  }

  /** The engine file a create wrote, at its own path in the walk, has the record the create made and no other after
      any reconcile, if and only if no live record had the ref before. */
  lemma CreatedFileHasOneRecordIff(
      c: Codec, s: Store, put: Op, subtree: string, wire: string, list: Engine, draws: nat -> Draw)
    returns (names: seq<string>)
    requires CleanSubtree(subtree) && CanonicalizeCreatePath(wire).Some?
    requires put.Put? && put.put.objectRef == CreateRef(subtree, wire) && Reply(s, put).GotRecord? && EnvOk(c, s, put)
    requires RunOk(c, Next(c, s, put), Ops(put.put.scope, Tree(list, true, ".").out, draws))
    ensures AllPlain(names) && names != []
    ensures var key := KeyAt(put.put.scope, PathTo(".", names));
            var end := Reconciled(c, Next(c, s, put), list, put.put.scope, draws);
            OneRecord(end.view, key, Reply(s, put).rec.fileID) <==> !LiveUnder(s.view, key)
  {
    names := CreateRefInWalk(subtree, wire);
    CreateThenReconcile(c, s, put, list, put.put.scope, draws);
    var rec := Reply(s, put).rec;
    OneRecordIff(s.view, rec, Reconciled(c, Next(c, s, put), list, put.put.scope, draws).view);
  }

  lemma OneRecordIff(p: Projection, rec: Record, q: Projection)
    requires rec.fileID !in p.recs && SameUnder(Apply(p, PutEntry(rec)), q, KeyOf(rec))
    ensures OneRecord(q, KeyOf(rec), rec.fileID) <==> !LiveUnder(p, KeyOf(rec))
  {
    var key, p1 := KeyOf(rec), Apply(p, PutEntry(rec));
    assert p1.recs == p.recs[rec.fileID := rec];
    forall j | j in q.recs && KeyOf(q.recs[j]) == key ensures j in p1.recs && q.recs[j] == p1.recs[j] {}
    if LiveUnder(p, key) {
      var j :| j in p.recs && KeyOf(p.recs[j]) == key;
      assert j in q.recs && KeyOf(q.recs[j]) == key && j != rec.fileID;
    }
  }

  // ---- A fault-free reconcile writes exactly when some file has no handle ------------------------

  lemma {:induction false} RunOnlyGrows(c: Codec, s: Store, ops: seq<Op>)
    ensures |Run(c, s, ops).disk.bytes| >= |s.disk.bytes|
    decreases |ops|
  {
    if ops != [] { RunOnlyGrows(c, Next(c, s, ops[0]), ops[1..]); }
  }

  /** On a healthy store a fault-free reconcile leaves the log alone exactly when every file is handled already. */
  lemma {:induction false} SilentIffHandled(c: Codec, s: Store, ops: seq<Op>)
    requires JsonLike(c) && FaultFree(ops) && !s.failed && !s.closed
    ensures Run(c, s, ops).disk.bytes == s.disk.bytes <==> AllHandled(s.view, ops)
    decreases |ops|
  {
    if ops != [] {
      assert LineOk(c, PutEntry(EnsureRecord(ops[0].ensure, ops[0].mint)));
      if Handled(s.view, EnsureKey(ops[0].ensure)) {
        assert Next(c, s, ops[0]) == s;
        SilentIffHandled(c, s, ops[1..]);
        assert forall i :: 1 <= i < |ops| ==> ops[i] == ops[1..][i - 1];
      } else {
        RunOnlyGrows(c, Next(c, s, ops[0]), ops[1..]);
      }
    }
  }
}
