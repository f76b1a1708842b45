/** What an append-only line file promises about its entries over whole lives: which are durable, which merely
    surfaced, and what the next crash may take. Shared by the handle store and the audit sink. */
module Ledgers {
  import opened LineLog
  import opened Seqs
  import opened Wrappers

  /** The entries whose whole lines are in the file, and how many of them, from the front, are durable. */
  datatype Ledger<T> = Ledger(log: seq<T>, hard: nat) {
    predicate Valid() { hard <= |log| }
  }

  function Rendered<T>(line: T -> string, log: seq<T>): seq<string> {
    seq(|log|, i requires 0 <= i < |log| => line(log[i]))
  }

  lemma RenderedAppend<T>(line: T -> string, log: seq<T>, e: T)
    ensures Rendered(line, log + [e]) == Rendered(line, log) + [line(e)]
  {
  }

  lemma RenderedPrefix<T>(line: T -> string, log: seq<T>, m: nat)
    requires m <= |log|
    ensures Rendered(line, log[..m]) == Rendered(line, log)[..m]
  {
  }

  function BytesOf<T>(line: T -> string, log: seq<T>): nat {
    |Flat(Rendered(line, log))|
  }

  /** Acknowledged appends sync the whole file, so they secure everything before them too. */
  function Extend<T>(l: Ledger<T>, acked: seq<T>): Ledger<T> {
    if acked == [] then l else Ledger(l.log + acked, |l.log + acked|)
  }

  lemma ExtendTwice<T>(l: Ledger<T>, a: seq<T>, b: seq<T>)
    ensures Extend(Extend(l, a), b) == Extend(l, a + b)
  {
    Assoc(l.log, a, b);
    AppendNothing(a);
    assert [] + b == b;
  }

  /** The entries in the file once the faulted append, if any, is counted as if its line were whole. */
  function WithFaulted<T>(log: seq<T>, faulted: Option<T>): seq<T> {
    if faulted.Some? then log + [faulted.value] else log
  }

  function Kept<T>(line: T -> string, log: seq<T>, cut: nat): (m: nat)
    ensures m <= |log|
  {
    CountWithin(Rendered(line, log), cut)
  }

  /** The cut falls inside a line. */
  predicate Tears<T>(line: T -> string, log: seq<T>, cut: nat) {
    cut != BytesOf(line, log[..Kept(line, log, cut)])
  }

  /** A crash that keeps `cut` bytes, and the reopening after it. */
  function Crash<T>(line: T -> string, l: Ledger<T>, faulted: Option<T>, cut: nat): Ledger<T> {
    var whole := WithFaulted(l.log, faulted);
    var m := Kept(line, whole, cut);
    Ledger(whole[..m], if Tears(line, whole, cut) then m else l.hard)
  }

  /** One incarnation as the file sees it: acknowledged appends, perhaps one that faulted, and a crash. */
  datatype Turn<T> = Turn(acked: seq<T>, faulted: Option<T>, cut: nat)

  function Turned<T>(line: T -> string, l: Ledger<T>, t: Turn<T>): Ledger<T> {
    Crash(line, Extend(l, t.acked), t.faulted, t.cut)
  }

  function After<T>(line: T -> string, l: Ledger<T>, turns: seq<Turn<T>>): Ledger<T>
    decreases |turns|
  {
    if turns == [] then l else After(line, Turned(line, l, turns[0]), turns[1..])
  }

  /** The crash takes no durable byte, and every entry is a line. */
  ghost predicate TurnOk<T>(line: T -> string, l: Ledger<T>, t: Turn<T>) {
    var l1 := Extend(l, t.acked);
    && l1.Valid() && BytesOf(line, l1.log[..l1.hard]) <= t.cut
    && AllLines(Rendered(line, WithFaulted(l1.log, t.faulted)))
  }

  ghost predicate TurnsOk<T>(line: T -> string, l: Ledger<T>, turns: seq<Turn<T>>)
    decreases |turns|
  {
    turns != [] ==> TurnOk(line, l, turns[0]) && TurnsOk(line, Turned(line, l, turns[0]), turns[1..])
  }

  /** An incarnation keeps what was durable before its crash, and adds only what it appended. */
  lemma TurnKeeps<T>(line: T -> string, l: Ledger<T>, t: Turn<T>)
    requires l.Valid() && TurnOk(line, l, t)
    ensures var l1, l2 := Extend(l, t.acked), Turned(line, l, t);
            && l1.hard <= l2.hard <= |l2.log| && l1.log[..l1.hard] <= l2.log[..l2.hard]
            && l2.log <= WithFaulted(l1.log, t.faulted)
            && l.hard <= l1.hard && l.log[..l.hard] <= l1.log[..l1.hard]
  {
    var l1 := Extend(l, t.acked);
    var whole := WithFaulted(l1.log, t.faulted);
    assert whole[..l1.hard] == l1.log[..l1.hard];
    RenderedPrefix(line, whole, l1.hard);
    CountReaches(Rendered(line, whole), l1.hard, t.cut);
  }

  /** What is durable stays, through every life. */
  lemma {:induction false} HardKept<T>(line: T -> string, l: Ledger<T>, turns: seq<Turn<T>>)
    requires l.Valid() && TurnsOk(line, l, turns)
    ensures var end := After(line, l, turns);
            end.Valid() && l.hard <= end.hard && l.log[..l.hard] <= end.log[..end.hard]
    decreases |turns|
  {
    if turns != [] {
      TurnKeeps(line, l, turns[0]);
      HardKept(line, Turned(line, l, turns[0]), turns[1..]);
    }
  }

  lemma FirstAckedKept<T>(line: T -> string, l: Ledger<T>, turns: seq<Turn<T>>)
    requires l.Valid() && TurnsOk(line, l, turns) && turns != [] && turns[0].acked != []
    ensures l.log + turns[0].acked <= After(line, l, turns).log
  {
    var l1, l2, end := Extend(l, turns[0].acked), Turned(line, l, turns[0]), After(line, l, turns);
    TurnKeeps(line, l, turns[0]);
    HardKept(line, l2, turns[1..]);
    assert l1.log == l1.log[..l1.hard];
  }

  lemma AfterPrefix<T>(line: T -> string, l: Ledger<T>, turns: seq<Turn<T>>, i: nat)
    requires 0 < i <= |turns|
    ensures After(line, l, turns[..i]) == After(line, Turned(line, l, turns[0]), turns[1..][..i - 1])
  {
    assert turns[..i][0] == turns[0] && turns[..i][1..] == turns[1..][..i - 1];
  }

  /** Every acknowledged entry keeps its place, and everything before it, through every later life. */
  lemma {:induction false} AckedKept<T>(line: T -> string, l: Ledger<T>, turns: seq<Turn<T>>, i: nat)
    requires l.Valid() && TurnsOk(line, l, turns) && i < |turns| && turns[i].acked != []
    ensures After(line, l, turns[..i]).log + turns[i].acked <= After(line, l, turns).log
    decreases |turns|
  {
    if i == 0 {
      FirstAckedKept(line, l, turns);
    } else {
      TurnKeeps(line, l, turns[0]);
      AckedKept(line, Turned(line, l, turns[0]), turns[1..], i - 1);
      AfterPrefix(line, l, turns, i);
    }
  }

  // ---- Entries that surfaced without being acknowledged ------------------------------------------

  /** The entry at p was still there at every reopening. */
  predicate Stayed<T>(line: T -> string, l: Ledger<T>, turns: seq<Turn<T>>, p: nat)
    decreases |turns|
  {
    turns != [] ==>
      p < |Turned(line, l, turns[0]).log| && Stayed(line, Turned(line, l, turns[0]), turns[1..], p)
  }

  /** Some incarnation acknowledged an append, or some reopening dropped a torn tail. */
  predicate Secured<T>(line: T -> string, l: Ledger<T>, turns: seq<Turn<T>>)
    decreases |turns|
  {
    && turns != []
    && (turns[0].acked != [] || Tears(line, WithFaulted(l.log, turns[0].faulted), turns[0].cut)
        || Secured(line, Turned(line, l, turns[0]), turns[1..]))
  }

  /** An entry that surfaced without being durable is durable once, and only once, a later append was acknowledged
      or a later reopening dropped a torn tail. */
  lemma {:induction false} DurableIffSecured<T>(line: T -> string, l: Ledger<T>, turns: seq<Turn<T>>, p: nat)
    requires l.Valid() && TurnsOk(line, l, turns) && l.hard <= p < |l.log| && Stayed(line, l, turns, p)
    ensures var end := After(line, l, turns);
            l.log[..p + 1] <= end.log && (p < end.hard <==> Secured(line, l, turns))
    decreases |turns|
  {
    if turns != [] {
      TurnKeeps(line, l, turns[0]);
      var l2 := Turned(line, l, turns[0]);
      assert l2.log[..p + 1] == l.log[..p + 1];
      if p < l2.hard {
        HardKept(line, l2, turns[1..]);
        assert l.log[..p + 1] <= l2.log[..l2.hard];
      } else {
        DurableIffSecured(line, l2, turns[1..], p);
      }
    }
  }
}
