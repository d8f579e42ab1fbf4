/**
 Several server processes over one table of API keys: each has its own buffer of last-used times
 (backend/app/auth/api_key.py), and every update is unconditional.  This module says when that moves a stored time back.
 */
module LastUsedWorkers {
  import opened Options
  import opened LastUsedBuffer

  datatype Worker = Worker(pending: Dict, inFlight: Dict)

  /** The processes, their table and clock, and who wrote each row last, if anybody did since the start. */
  datatype Fleet = Fleet(workers: seq<Worker>, table: Table, writer: map<Key, nat>, now: int)

  datatype Move =
    | Wait(elapsed: nat)
    | UseAt(worker: nat, key: Key)
    | BeginAt(worker: nat)
    | WriteAt(worker: nat)
    | BreakAt(worker: nat)
    | Add(key: Key)
    | Remove(key: Key)

  predicate CanMove(f: Fleet, m: Move) {
    match m
    case UseAt(i, _) => i < |f.workers|
    case BeginAt(i) => i < |f.workers| && f.workers[i].inFlight == []
    case WriteAt(i) => i < |f.workers| && f.workers[i].inFlight != []
    case BreakAt(i) => i < |f.workers|
    case Add(key) => key !in f.table
    case _ => true
  }

  /** What one process sees: its own buffer and the common table. */
  function StoreOf(f: Fleet, i: nat): Store
    requires i < |f.workers|
  {
    Store(f.workers[i].pending, f.workers[i].inFlight, f.table)
  }

  function WithStore(f: Fleet, i: nat, s: Store): Fleet
    requires i < |f.workers|
  {
    f.(workers := f.workers[i := Worker(s.pending, s.inFlight)], table := s.table)
  }

  function After(f: Fleet, m: Move): Fleet
    requires CanMove(f, m)
  {
    match m
    case Wait(elapsed) => f.(now := f.now + elapsed)
    case UseAt(i, key) => WithStore(f, i, Use(StoreOf(f, i), key, f.now))
    case BeginAt(i) => WithStore(f, i, Swap(StoreOf(f, i)))
    case WriteAt(i) =>
      var key := f.workers[i].inFlight[0].key;
      WithStore(f, i, WriteNext(StoreOf(f, i))).(writer := if key in f.table then f.writer[key := i] else f.writer)
    case BreakAt(i) => WithStore(f, i, Fail(StoreOf(f, i)))
    case Add(key) => f.(table := f.table[key := None])
    case Remove(key) => f.(table := f.table - {key}, writer := f.writer - {key})
  }

  // ---------------------------------------------------------------------------
  // What every move keeps
  // ---------------------------------------------------------------------------

  /** Row and worker are in order: what the worker still has to write is no earlier than the row. */
  predicate InOrder(f: Fleet, k: Key, i: nat)
    requires k in f.table && i < |f.workers|
  {
    var p, u := Get(f.workers[i].pending, k), Get(f.workers[i].inFlight, k);
    (p.Some? ==> AtMost(f.table[k], p)) && (u.Some? ==> AtMost(f.table[k], u))
  }

  predicate WorkerInv(f: Fleet, i: nat, k: Key)
    requires i < |f.workers|
  {
    var p, u := Get(f.workers[i].pending, k), Get(f.workers[i].inFlight, k);
    AtMost(p, Some(f.now)) && AtMost(u, Some(f.now)) && (p.Some? ==> AtMost(u, p))
  }

  /** A row nobody wrote is in order with all; a written one at least with its last writer. */
  predicate RowOrder(f: Fleet, k: Key, i: nat)
    requires i < |f.workers|
  {
    k in f.table && (k !in f.writer || f.writer[k] == i) ==> InOrder(f, k, i)
  }

  ghost predicate FleetInv(f: Fleet) {
    && f.writer.Keys <= f.table.Keys
    && (forall k :: k in f.table ==> AtMost(f.table[k], Some(f.now)))
    && (forall i :: 0 <= i < |f.workers| ==> Distinct(f.workers[i].pending) && Distinct(f.workers[i].inFlight))
    && (forall i, k :: 0 <= i < |f.workers| ==> WorkerInv(f, i, k) && RowOrder(f, k, i))
  }

  ghost predicate FleetInitial(f: Fleet) {
    && f.writer == map[]
    && (forall i :: 0 <= i < |f.workers| ==> f.workers[i] == Worker([], []))
    && forall k :: k in f.table ==> AtMost(f.table[k], Some(f.now))
  }

  lemma UseKeepsFleet(f: Fleet, i: nat, key: Key)
    requires FleetInv(f) && i < |f.workers|
    ensures FleetInv(After(f, UseAt(i, key)))
  {
    hide Get, Set, Distinct;
    var f' := After(f, UseAt(i, key));
    SetDistinct(f.workers[i].pending, key, f.now);
    forall j, k | 0 <= j < |f'.workers| ensures WorkerInv(f', j, k) && RowOrder(f', k, j) {
      assert WorkerInv(f, j, k) && RowOrder(f, k, j);
      if j == i { GetSet(f.workers[i].pending, key, f.now, k); }
    }
  }

  lemma WriteKeepsFleet(f: Fleet, i: nat)
    requires FleetInv(f) && CanMove(f, WriteAt(i))
    ensures FleetInv(After(f, WriteAt(i)))
  {
    hide Set;
    var f', e, rest := After(f, WriteAt(i)), f.workers[i].inFlight[0], f.workers[i].inFlight[1..];
    NotAgain(f.workers[i].inFlight);
    forall k ensures Get(f.workers[i].inFlight, k) == if k == e.key then Some(e.time) else Get(rest, k) {}
    assert WorkerInv(f, i, e.key);
    hide Get;
    forall j, k | 0 <= j < |f'.workers| ensures WorkerInv(f', j, k) && RowOrder(f', k, j) {
      assert WorkerInv(f, j, k) && RowOrder(f, k, j);
    }
  }

  lemma OtherwiseKeepsFleet(f: Fleet, m: Move)
    requires FleetInv(f) && CanMove(f, m) && !m.UseAt? && !m.WriteAt?
    ensures FleetInv(After(f, m))
  {
    hide Set;
    var f' := After(f, m);
    forall j, k | 0 <= j < |f'.workers| ensures WorkerInv(f', j, k) && RowOrder(f', k, j) {
      assert WorkerInv(f, j, k) && RowOrder(f, k, j);
    }
  }

  lemma MoveKeepsFleet(f: Fleet, m: Move)
    requires FleetInv(f) && CanMove(f, m)
    ensures FleetInv(After(f, m)) && |After(f, m).workers| == |f.workers|
  {
    hide FleetInv;
    match m
    case UseAt(i, key) => UseKeepsFleet(f, i, key);
    case WriteAt(i) => WriteKeepsFleet(f, i);
    case _ => OtherwiseKeepsFleet(f, m);
  }

  ghost predicate CanMoves(f: Fleet, moves: seq<Move>)
    decreases |moves|
  {
    moves != [] ==> CanMove(f, moves[0]) && CanMoves(After(f, moves[0]), moves[1..])
  }

  ghost function AfterAll(f: Fleet, moves: seq<Move>): Fleet
    requires CanMoves(f, moves)
    decreases |moves|
  {
    if moves == [] then f else AfterAll(After(f, moves[0]), moves[1..])
  }

  lemma {:induction false} MovesKeepFleet(f: Fleet, moves: seq<Move>)
    requires FleetInv(f) && CanMoves(f, moves)
    ensures FleetInv(AfterAll(f, moves)) && |AfterAll(f, moves).workers| == |f.workers|
    decreases |moves|
  {
    hide FleetInv, After;
    if moves != [] {
      MoveKeepsFleet(f, moves[0]);
      MovesKeepFleet(After(f, moves[0]), moves[1..]);
    }
  }

  lemma InitialFleetInv(f: Fleet)
    requires FleetInitial(f)
    ensures FleetInv(f)
  {
    forall i, k | 0 <= i < |f.workers| ensures WorkerInv(f, i, k) && RowOrder(f, k, i) {}
  }

  // ---------------------------------------------------------------------------
  // Main results
  // ---------------------------------------------------------------------------

  /** The move sets a row to an earlier time than it held. */
  predicate MovesBack(f: Fleet, m: Move, key: Key)
    requires CanMove(f, m)
  {
    var f' := After(f, m);
    key in f.table && key in f'.table && !AtMost(f.table[key], f'.table[key])
  }

  /**
   In every run of any number of processes: a move sets a stored time back exactly when it is the update of a row that
   another process was the last to write, with a later time.
   */
  lemma MovesBackIff(f0: Fleet, moves: seq<Move>, m: Move, key: Key)
    requires FleetInitial(f0) && CanMoves(f0, moves) && CanMove(AfterAll(f0, moves), m)
    ensures var f := AfterAll(f0, moves);
      MovesBack(f, m, key) <==>
        && m.WriteAt? && f.workers[m.worker].inFlight[0].key == key
        && key in f.table && key in f.writer && f.writer[key] != m.worker
        && f.table[key].Some? && f.workers[m.worker].inFlight[0].time < f.table[key].value
  {
    InitialFleetInv(f0);
    MovesKeepFleet(f0, moves);
    var f := AfterAll(f0, moves);
    if m.WriteAt? {
      var e := f.workers[m.worker].inFlight[0];
      assert WorkerInv(f, m.worker, e.key) && RowOrder(f, e.key, m.worker);
      assert Get(f.workers[m.worker].inFlight, e.key) == Some(e.time);
    }
  }

  /** A single process never sets a stored time back. */
  lemma OneWorkerNeverMovesBack(f0: Fleet, moves: seq<Move>, m: Move, key: Key)
    requires FleetInitial(f0) && |f0.workers| == 1 && CanMoves(f0, moves) && CanMove(AfterAll(f0, moves), m)
    ensures !MovesBack(AfterAll(f0, moves), m, key)
  {
    InitialFleetInv(f0);
    MovesKeepFleet(f0, moves);
    MovesBackIff(f0, moves, m, key);
    WriterIsWorker(f0, moves, key);
  }

  lemma {:induction false} WriterIsWorker(f: Fleet, moves: seq<Move>, key: Key)
    requires CanMoves(f, moves) && (key in f.writer ==> f.writer[key] < |f.workers|)
    ensures var f' := AfterAll(f, moves); key in f'.writer ==> f'.writer[key] < |f.workers|
    decreases |moves|
  {
    if moves != [] { WriterIsWorker(After(f, moves[0]), moves[1..], key); }
  }

  /** Two processes: the second one's use is written first, and the first one's, which is older, over it. */
  function Overtaken(key: Key): seq<Move> {
    [UseAt(0, key), Wait(1), UseAt(1, key), BeginAt(1), WriteAt(1), BeginAt(0)]
  }

  lemma OvertakenMoves(f0: Fleet, key: Key)
    requires FleetInitial(f0) && |f0.workers| == 2 && key in f0.table
    ensures var ms := Overtaken(key);
      && CanMove(f0, ms[0])
      && var f1 := After(f0, ms[0]);
      var f2 := After(f1, ms[1]);
      && CanMove(f2, ms[2])
      && var f3 := After(f2, ms[2]);
      && CanMove(f3, ms[3])
      && var f4 := After(f3, ms[3]);
      && CanMove(f4, ms[4])
      && var f5 := After(f4, ms[4]);
      && CanMove(f5, ms[5])
      && var f6 := After(f5, ms[5]);
      && key in f6.table && f6.table[key] == Some(f0.now + 1)
      && |f6.workers| == 2 && f6.workers[0].inFlight == [Entry(key, f0.now)]
  {
  }

  /** So with two processes a stored time does go back. */
  lemma TwoWorkersMoveBack(f0: Fleet, key: Key)
    requires FleetInitial(f0) && |f0.workers| == 2 && key in f0.table
    ensures CanMoves(f0, Overtaken(key)) && CanMove(AfterAll(f0, Overtaken(key)), WriteAt(0))
    ensures MovesBack(AfterAll(f0, Overtaken(key)), WriteAt(0), key)
  {
    OvertakenMoves(f0, key);
    var ms := Overtaken(key);
    var f1 := After(f0, ms[0]);
    var f2 := After(f1, ms[1]);
    var f3 := After(f2, ms[2]);
    var f4 := After(f3, ms[3]);
    var f5 := After(f4, ms[4]);
    var f6 := After(f5, ms[5]);
    assert CanMove(f6, WriteAt(0)) && MovesBack(f6, WriteAt(0), key);
    hide After, CanMoves, AfterAll, MovesBack;
    NoMoves(f6);
    assert ms[5..][1..] == [];
    FirstMove(f5, ms[5..]);
    assert ms[4..][1..] == ms[5..];
    FirstMove(f4, ms[4..]);
    assert ms[3..][1..] == ms[4..];
    FirstMove(f3, ms[3..]);
    assert ms[2..][1..] == ms[3..];
    FirstMove(f2, ms[2..]);
    assert ms[1..][1..] == ms[2..];
    FirstMove(f1, ms[1..]);
    FirstMove(f0, ms);
  }

  lemma NoMoves(f: Fleet)
    ensures CanMoves(f, []) && AfterAll(f, []) == f
  {
  }

  lemma FirstMove(f: Fleet, moves: seq<Move>)
    requires moves != [] && CanMove(f, moves[0]) && CanMoves(After(f, moves[0]), moves[1..])
    ensures CanMoves(f, moves) && AfterAll(f, moves) == AfterAll(After(f, moves[0]), moves[1..])
  {
  }
}
