/**
 The last-used times of backend/app/auth/api_key.py: noted in a dictionary at every use, and written to the database by
 a loop that swaps the dictionary for a fresh one.  Every statement of a flush commits by itself, so a flush that fails
 part of the way leaves what it has written and forgets the rest.
 */
module LastUsedBuffer {
  import opened Options

  type Key = string

  /** A dictionary in the order its keys were first set. */
  datatype Entry = Entry(key: Key, time: int)
  type Dict = seq<Entry>

  /** A key's row holds its last use, if any; a key without a row is deleted or was never created. */
  type Table = map<Key, Option<int>>

  datatype Store = Store(pending: Dict, inFlight: Dict, table: Table)

  // ---------------------------------------------------------------------------
  // Dictionaries
  // ---------------------------------------------------------------------------

  function Get(d: Dict, key: Key): (time: Option<int>)
    ensures time.Some? ==> Entry(key, time.value) in d
    ensures time.None? ==> forall e :: e in d ==> e.key != key
  {
    if d == [] then None else if d[0].key == key then Some(d[0].time) else Get(d[1..], key)
  }

  /** A key that is there keeps its place. */
  function Set(d: Dict, key: Key, time: int): Dict {
    if d == [] then [Entry(key, time)]
    else if d[0].key == key then [Entry(key, time)] + d[1..]
    else [d[0]] + Set(d[1..], key, time)
  }

  predicate Distinct(d: Dict) { forall i, j :: 0 <= i < j < |d| ==> d[i].key != d[j].key }

  lemma {:induction false} GetSet(d: Dict, key: Key, time: int, other: Key)
    ensures Get(Set(d, key, time), other) == if other == key then Some(time) else Get(d, other)
  {
    if d != [] { GetSet(d[1..], key, time, other); }
  }

  lemma {:induction false} SetHolds(d: Dict, key: Key, time: int, e: Entry)
    requires e in Set(d, key, time)
    ensures e in d || e == Entry(key, time)
  {
    if d != [] && d[0].key != key && e != d[0] { SetHolds(d[1..], key, time, e); }
  }

  lemma {:induction false} SetDistinct(d: Dict, key: Key, time: int)
    requires Distinct(d)
    ensures Distinct(Set(d, key, time))
  {
    if d != [] && d[0].key != key {
      var rest := Set(d[1..], key, time);
      SetDistinct(d[1..], key, time);
      forall i | 0 <= i < |rest| ensures rest[i].key != d[0].key { SetHolds(d[1..], key, time, rest[i]); }
    }
  }

  // ---------------------------------------------------------------------------
  // The steps of the program
  // ---------------------------------------------------------------------------

  function Use(s: Store, key: Key, now: int): Store { s.(pending := Set(s.pending, key, now)) }

  /** A flush begins; it does nothing when nothing is pending. */
  function Swap(s: Store): Store { if s.pending == [] then s else Store([], s.pending, s.table) }

  /** An update of a row that is gone changes nothing. */
  function Updated(table: Table, e: Entry): Table { if e.key in table then table[e.key := Some(e.time)] else table }

  /** The loop's next update; keys are written in the order of their first use. */
  function WriteNext(s: Store): Store
    requires s.inFlight != []
  {
    s.(inFlight := s.inFlight[1..], table := Updated(s.table, s.inFlight[0]))
  }

  /** The flush raises: what was not yet written is dropped. */
  function Fail(s: Store): Store { s.(inFlight := []) }

  /** The table after the updates of a list. */
  function Written(table: Table, d: Dict): Table {
    if d == [] then table else Written(Updated(table, d[0]), d[1..])
  }

  /** A key's last use as the buffer knows it: pending uses over unwritten ones over the table. */
  function Seen(s: Store, key: Key): Option<int>
    requires key in s.table
  {
    if Get(s.pending, key).Some? then Get(s.pending, key)
    else if Get(s.inFlight, key).Some? then Get(s.inFlight, key)
    else s.table[key]
  }

  class Buffer {
    var pending: Dict
    var inFlight: Dict
    var table: Table

    constructor (table: Table)
      ensures GetStore() == Store([], [], table)
    {
      pending, inFlight := [], [];
      this.table := table;
    }

    function GetStore(): Store
      reads this
    {
      Store(pending, inFlight, table)
    }

    method UpdateLastUsed(key: Key, now: int)
      modifies `pending
      ensures GetStore() == Use(old(GetStore()), key, now)
      ensures forall k :: k in table ==> Seen(GetStore(), k) == if k == key then Some(now) else old(Seen(GetStore(), k))
    {
      forall k { GetSet(pending, key, now, k); }
      pending := Set(pending, key, now);
    }

    method BeginFlush()
      requires inFlight == []
      modifies this
      ensures GetStore() == Swap(old(GetStore()))
      ensures table == old(table) && forall k :: k in table ==> Seen(GetStore(), k) == old(Seen(GetStore(), k))
    {
      if pending == [] { return; }
      inFlight := pending;
      pending := [];
    }

    /** Writes up to n of the swapped entries, in order. */
    method WriteSome(n: nat)
      requires n <= |inFlight|
      modifies this
      ensures pending == old(pending) && inFlight == old(inFlight)[n..]
      ensures table == Written(old(table), old(inFlight)[..n])
    {
      for i := 0 to n
        invariant pending == old(pending) && inFlight == old(inFlight)[i..]
        invariant table == Written(old(table), old(inFlight)[..i])
      {
        WrittenMore(old(table), old(inFlight), i);
        if inFlight[0].key in table { table := table[inFlight[0].key := Some(inFlight[0].time)]; }
        inFlight := inFlight[1..];
      }
    }

    /** One round of the loop: a flush that fails after n updates, or not at all. */
    method Flush(failsAfter: Option<nat>)
      requires inFlight == [] && (failsAfter.Some? ==> failsAfter.value <= |pending|)
      modifies this
      ensures pending == [] && inFlight == []
      ensures table == Written(old(table), if failsAfter.Some? then old(pending)[..failsAfter.value] else old(pending))
    {
      BeginFlush();
      if failsAfter.Some? && failsAfter.value < |inFlight| {
        WriteSome(failsAfter.value);
        inFlight := [];
      } else {
        WriteSome(|inFlight|);
        assert old(pending)[..|old(pending)|] == old(pending);
      }
    }
  }

  lemma {:induction false} WrittenMore(table: Table, d: Dict, i: nat)
    requires i < |d|
    ensures Written(table, d[..i + 1]) == Updated(Written(table, d[..i]), d[i])
  {
    if i > 0 {
      assert d[..i + 1][1..] == d[1..][..i] && d[..i][1..] == d[1..][..i - 1];
      WrittenMore(Updated(table, d[0]), d[1..], i - 1);
    }
  }

  /** The updates of a dictionary, key by key. */
  lemma {:induction false} WrittenIs(table: Table, d: Dict, key: Key)
    requires Distinct(d)
    ensures key in Written(table, d) <==> key in table
    ensures key in table ==> Written(table, d)[key] == if Get(d, key).Some? then Some(Get(d, key).value) else table[key]
  {
    if d != [] {
      WrittenIs(Updated(table, d[0]), d[1..], key);
      if d[0].key == key { NotAgain(d); }
    }
  }

  lemma NotAgain(d: Dict)
    requires Distinct(d) && d != []
    ensures Get(d[1..], d[0].key).None?
  {
    assert forall j :: 0 <= j < |d[1..]| ==> d[1..][j] == d[j + 1];
  }

  // ---------------------------------------------------------------------------
  // A flush that fails
  // ---------------------------------------------------------------------------

  /** The row of every entry's key, if there is one, already holds the entry's time. */
  predicate AlreadyThere(table: Table, d: Dict) {
    forall i :: 0 <= i < |d| && d[i].key in table ==> table[d[i].key] == Some(d[i].time)
  }

  lemma {:induction false} GetAt(d: Dict, i: nat)
    requires Distinct(d) && i < |d|
    ensures Get(d, d[i].key) == Some(d[i].time)
  {
    if i > 0 {
      assert d[0].key != d[i].key;
      GetAt(d[1..], i - 1);
    }
  }

  /** Updates change nothing exactly when every row already holds its time. */
  lemma IdleIff(table: Table, d: Dict)
    requires Distinct(d)
    ensures Written(table, d) == table <==> AlreadyThere(table, d)
  {
    forall k ensures k in Written(table, d) <==> k in table { WrittenIs(table, d, k); }
    if AlreadyThere(table, d) {
      forall k | k in table ensures Written(table, d)[k] == table[k] {
        WrittenIs(table, d, k);
        if Get(d, k).Some? { var i :| 0 <= i < |d| && d[i] == Entry(k, Get(d, k).value); }
      }
    }
    if Written(table, d) == table {
      forall i | 0 <= i < |d| && d[i].key in table ensures table[d[i].key] == Some(d[i].time) {
        WrittenIs(table, d, d[i].key);
        GetAt(d, i);
      }
    }
  }

  lemma {:induction false} WrittenSplits(table: Table, d: Dict, n: nat)
    requires n <= |d|
    ensures Written(table, d) == Written(Written(table, d[..n]), d[n..])
  {
    if n > 0 {
      assert d[..n][1..] == d[1..][..n - 1] && d[1..][n - 1..] == d[n..];
      WrittenSplits(Updated(table, d[0]), d[1..], n - 1);
    } else {
      assert d[..0] == [] && d[0..] == d;
    }
  }

  /**
   The flush is documented as one transaction.  After a failure with n updates done the table is the old one or the
   fully flushed one exactly when all rows written, or all rows not written, held their times already: with two rows to
   change, one on each side of the failure, neither is the case.
   */
  lemma FlushAtomicIff(table: Table, d: Dict, n: nat)
    requires Distinct(d) && n <= |d|
    ensures Written(table, d[..n]) == table || Written(table, d[..n]) == Written(table, d) <==>
      AlreadyThere(table, d[..n]) || AlreadyThere(table, d[n..])
  {
    WrittenSplits(table, d, n);
    IdleIff(table, d[..n]);
    IdleIff(Written(table, d[..n]), d[n..]);
    forall i | n <= i < |d| && d[i].key in table
      ensures d[i].key in Written(table, d[..n]) && Written(table, d[..n])[d[i].key] == table[d[i].key]
    {
      WrittenIs(table, d[..n], d[i].key);
    }
    forall i | 0 <= i < |d[n..]|
      ensures d[n..][i] == d[n + i] && (d[n + i].key in Written(table, d[..n]) <==> d[n + i].key in table)
    {
      WrittenIs(table, d[..n], d[n + i].key);
    }
  }

  /** A half-written flush: of two first uses one is stored and one is gone. */
  lemma HalfWritten(t: int)
    ensures var table, d := map["a" := None, "b" := None], [Entry("a", t), Entry("b", t)];
      && Written(table, d[..1]) == map["a" := Some(t), "b" := None]
      && Written(table, d[..1]) != table && Written(table, d[..1]) != Written(table, d)
  {
    var table: Table, d := map["a" := None, "b" := None], [Entry("a", t), Entry("b", t)];
    assert d[..1] == [Entry("a", t)] && d[1..] == [Entry("b", t)];
    WrittenIs(table, d[..1], "a");
    WrittenIs(table, d[..1], "b");
    WrittenIs(table, d, "b");
    assert Get(d, "b") == Some(t);
  }

  // ---------------------------------------------------------------------------
  // Interleaving with uses, new keys and deleted keys
  // ---------------------------------------------------------------------------

  /**
   A world: the store, the clock, the table an immediate write at every use would have kept, the keys whose latest use
   was dropped by a failed flush, and every key ever created (ids are random and never come back).
   */
  datatype World = World(store: Store, now: int, ideal: Table, lost: set<Key>, created: set<Key>)

  datatype Step =
    | Tick(elapsed: nat)
    | UseKey(key: Key)
    | Begin
    | Write
    | Break
    | Create(key: Key)
    | Delete(key: Key)

  predicate Enabled(w: World, s: Step) {
    match s
    case UseKey(key) => key in w.created
    case Begin => w.store.inFlight == []
    case Write => w.store.inFlight != []
    case Create(key) => key !in w.created
    case _ => true
  }

  /** Keys a failing flush was still to write to a row that holds another time, and that were not used again since. */
  function Dropped(s: Store): set<Key> {
    set k | k in s.table && Get(s.inFlight, k).Some? && Get(s.pending, k).None? && s.table[k] != Get(s.inFlight, k)
  }

  function Next(w: World, s: Step): World
    requires Enabled(w, s)
  {
    match s
    case Tick(elapsed) => w.(now := w.now + elapsed)
    case UseKey(key) =>
      w.(store := Use(w.store, key, w.now), ideal := Updated(w.ideal, Entry(key, w.now)), lost := w.lost - {key})
    case Begin => w.(store := Swap(w.store))
    case Write => w.(store := WriteNext(w.store))
    case Break => w.(store := Fail(w.store), lost := w.lost + Dropped(w.store))
    case Create(key) =>
      w.(store := w.store.(table := w.store.table[key := None]), ideal := w.ideal[key := None],
         created := w.created + {key})
    case Delete(key) =>
      w.(store := w.store.(table := w.store.table - {key}), ideal := w.ideal - {key}, lost := w.lost - {key})
  }

  /** No use at all is earlier than any. */
  predicate AtMost(a: Option<int>, b: Option<int>) { a.None? || (b.Some? && a.value <= b.value) }

  ghost predicate Inv(w: World) {
    && w.store.table.Keys == w.ideal.Keys && w.lost <= w.store.table.Keys <= w.created
    && Distinct(w.store.pending) && Distinct(w.store.inFlight)
    && (forall k :: TimesInv(w, k))
    && (forall k :: k in w.store.table ==> RowInv(w, k))
  }

  /** The times of a key: unwritten uses are earlier than pending ones, and only created keys have any. */
  predicate TimesInv(w: World, k: Key) {
    var p, f := Get(w.store.pending, k), Get(w.store.inFlight, k);
    && AtMost(p, Some(w.now)) && AtMost(f, Some(w.now)) && (p.Some? ==> AtMost(f, p))
    && (p.Some? || f.Some? ==> k in w.created && k !in w.lost)
  }

  predicate RowInv(w: World, k: Key)
    requires k in w.store.table && k in w.ideal
  {
    var p, f, row := Get(w.store.pending, k), Get(w.store.inFlight, k), w.store.table[k];
    && AtMost(row, Some(w.now)) && (f.Some? ==> AtMost(row, f)) && (p.Some? ==> AtMost(row, p))
    && AtMost(Seen(w.store, k), w.ideal[k])
    && (k in w.lost <==> Seen(w.store, k) != w.ideal[k])
  }

  ghost predicate Initial(w: World) {
    && w.store.pending == [] && w.store.inFlight == [] && w.lost == {}
    && w.ideal == w.store.table && w.store.table.Keys <= w.created
    && forall k :: k in w.store.table ==> AtMost(w.store.table[k], Some(w.now))
  }

  lemma UseKeepsInv(w: World, key: Key)
    requires Inv(w) && Enabled(w, UseKey(key))
    ensures Inv(Next(w, UseKey(key)))
  {
    hide Get, Set, Distinct;
    var w' := Next(w, UseKey(key));
    SetDistinct(w.store.pending, key, w.now);
    forall k ensures TimesInv(w', k) {
      GetSet(w.store.pending, key, w.now, k);
      assert TimesInv(w, k);
    }
    forall k | k in w'.store.table ensures RowInv(w', k) {
      GetSet(w.store.pending, key, w.now, k);
      assert RowInv(w, k);
    }
  }

  lemma WriteKeepsInv(w: World)
    requires Inv(w) && Enabled(w, Write)
    ensures Inv(Next(w, Write))
  {
    hide Set;
    var w', e, rest := Next(w, Write), w.store.inFlight[0], w.store.inFlight[1..];
    NotAgain(w.store.inFlight);
    forall k ensures Get(w.store.inFlight, k) == if k == e.key then Some(e.time) else Get(rest, k) {}
    hide Get;
    forall k ensures TimesInv(w', k) { assert TimesInv(w, k); }
    forall k | k in w'.store.table ensures RowInv(w', k) { assert RowInv(w, k) && TimesInv(w, k); }
  }

  lemma OtherwiseKeepsInv(w: World, s: Step)
    requires Inv(w) && Enabled(w, s) && !s.UseKey? && !s.Write?
    ensures Inv(Next(w, s))
  {
    hide Set;
    var w' := Next(w, s);
    assert Get([], "").None?;
    forall k ensures TimesInv(w', k) { assert TimesInv(w, k); }
    forall k | k in w'.store.table ensures RowInv(w', k) {
      assert TimesInv(w, k);
      if k in w.store.table { assert RowInv(w, k); }
    }
  }

  lemma StepKeepsInv(w: World, s: Step)
    requires Inv(w) && Enabled(w, s)
    ensures Inv(Next(w, s))
  {
    hide Inv, Next;
    if s.UseKey? { UseKeepsInv(w, s.key); }
    else if s.Write? { WriteKeepsInv(w); }
    else { OtherwiseKeepsInv(w, s); }
  }

  /** With a clock that never goes back, no stored time ever moves back, whatever fails. */
  lemma StoredTimesNeverMoveBack(w: World, s: Step, key: Key)
    requires Inv(w) && Enabled(w, s) && key in w.store.table && key in Next(w, s).store.table
    ensures AtMost(w.store.table[key], Next(w, s).store.table[key])
  {
    assert RowInv(w, key) && TimesInv(w, key);
  }

  ghost predicate CanRun(w: World, steps: seq<Step>)
    decreases |steps|
  {
    steps != [] ==> Enabled(w, steps[0]) && CanRun(Next(w, steps[0]), steps[1..])
  }

  ghost function Run(w: World, steps: seq<Step>): World
    requires CanRun(w, steps)
    decreases |steps|
  {
    if steps == [] then w else Run(Next(w, steps[0]), steps[1..])
  }

  lemma {:induction false} RunKeepsInv(w: World, steps: seq<Step>)
    requires Inv(w) && CanRun(w, steps)
    ensures Inv(Run(w, steps))
    decreases |steps|
  {
    if steps != [] {
      StepKeepsInv(w, steps[0]);
      RunKeepsInv(Next(w, steps[0]), steps[1..]);
    }
  }

  lemma {:induction false} NothingLost(w: World, steps: seq<Step>)
    requires CanRun(w, steps) && Break !in steps
    ensures Run(w, steps).lost <= w.lost
    decreases |steps|
  {
    if steps != [] { NothingLost(Next(w, steps[0]), steps[1..]); }
  }

  lemma InitialInv(w: World)
    requires Initial(w)
    ensures Inv(w)
  {
    forall k | k in w.store.table ensures RowInv(w, k) {}
  }

  // ---------------------------------------------------------------------------
  // Main results
  // ---------------------------------------------------------------------------

  /**
   Over every interleaving without a failed flush, pending uses over unwritten ones over the table are the table that
   writing every use at once would have kept; so the table itself is that table whenever nothing is left to write.
   */
  lemma BufferedIsImmediate(w0: World, steps: seq<Step>)
    requires Initial(w0) && CanRun(w0, steps) && Break !in steps
    ensures var w := Run(w0, steps);
      && w.store.table.Keys == w.ideal.Keys
      && (forall k :: k in w.ideal ==> Seen(w.store, k) == w.ideal[k])
      && (w.store.pending == [] && w.store.inFlight == [] ==> w.store.table == w.ideal)
  {
    InitialInv(w0);
    RunKeepsInv(w0, steps);
    NothingLost(w0, steps);
    var w := Run(w0, steps);
    forall k | k in w.ideal ensures Seen(w.store, k) == w.ideal[k] { assert RowInv(w, k); }
  }

  /**
   With failed flushes too: a key is behind exactly when its latest use was in a flush that failed before writing it
   over another time, and it has not been used since.  It then shows an earlier use, and the next use repairs it.
   */
  lemma BehindIff(w0: World, steps: seq<Step>, key: Key)
    requires Initial(w0) && CanRun(w0, steps) && key in Run(w0, steps).ideal
    ensures var w := Run(w0, steps);
      && key in w.store.table && AtMost(Seen(w.store, key), w.ideal[key])
      && (Seen(w.store, key) != w.ideal[key] <==> key in w.lost)
      && key in w.created && key !in Next(w, UseKey(key)).lost && Seen(Next(w, UseKey(key)).store, key) == Some(w.now)
  {
    InitialInv(w0);
    RunKeepsInv(w0, steps);
    var w := Run(w0, steps);
    assert RowInv(w, key);
    GetSet(w.store.pending, key, w.now, key);
  }

  /**
   A failed flush puts a key behind exactly when it had still to write it over another time and nobody used it since.
   */
  lemma BreakLosesIff(w: World, key: Key)
    requires Inv(w) && key in w.store.table
    ensures var w' := Next(w, Break);
      Seen(w'.store, key) != w'.ideal[key] <==>
        Seen(w.store, key) != w.ideal[key]
        || (Get(w.store.pending, key).None? && Get(w.store.inFlight, key).Some?
          && w.store.table[key] != Get(w.store.inFlight, key))
  {
    StepKeepsInv(w, Break);
    assert RowInv(w, key) && RowInv(Next(w, Break), key);
  }

  /** Over any run in which the key is not deleted, its stored time at the end is no earlier than at the start. */
  lemma {:induction false} StoredTimeOverRun(w: World, steps: seq<Step>, key: Key)
    requires Inv(w) && CanRun(w, steps) && key in w.store.table && Delete(key) !in steps
    ensures key in Run(w, steps).store.table && AtMost(w.store.table[key], Run(w, steps).store.table[key])
    decreases |steps|
  {
    hide Inv;
    if steps != [] {
      var w' := Next(w, steps[0]);
      StepKeepsInv(w, steps[0]);
      assert steps[0] != Delete(key) && key in w'.store.table;
      StoredTimesNeverMoveBack(w, steps[0], key);
      StoredTimeOverRun(w', steps[1..], key);
    }
  }
}
