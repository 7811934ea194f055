/** The log of synchronisation operations, its compaction on wake-ups, and what a log says about
    mutex ownership. */
module SyncLog {

  datatype Kind = MutexLock | MutexUnlock | CondWait | CondSignal | CondBroadcast | AtomicWait | AtomicNotify

  datatype SyncOp = SyncOp(tid: nat, ref: nat, kind: Kind, expected: nat, wait64: bool)

  /** The operations on other references. */
  function Without(log: seq<SyncOp>, ref: nat): seq<SyncOp> {
    if log == [] then []
    else
      var last := log[|log| - 1];
      Without(log[..|log| - 1], ref) + (if last.ref == ref then [] else [last])
  }

  class Recorder {
    var syncOps: seq<SyncOp>

    constructor ()
      ensures syncOps == []
    {
      syncOps := [];
    }

    method InsertSyncOp(tid: nat, ref: nat, kind: Kind)
      modifies this
      ensures syncOps == old(syncOps) + [SyncOp(tid, ref, kind, 0, false)]
    {
      syncOps := syncOps + [SyncOp(tid, ref, kind, 0, false)];
    }

    method InsertAtomicWait(tid: nat, ref: nat, expected: nat, wait64: bool)
      modifies this
      ensures syncOps == old(syncOps) + [SyncOp(tid, ref, AtomicWait, expected, wait64)]
    {
      syncOps := syncOps + [SyncOp(tid, ref, AtomicWait, expected, wait64)];
    }

    method InsertAtomicNotify(tid: nat, ref: nat, count: nat)
      modifies this
      ensures syncOps == old(syncOps) + [SyncOp(tid, ref, AtomicNotify, count, false)]
    {
      syncOps := syncOps + [SyncOp(tid, ref, AtomicNotify, count, false)];
    }

    /** A wake-up removes every entry with the same reference, whatever its kind. */
    method InsertAtomicWake(ref: nat)
      modifies this
      ensures syncOps == Without(old(syncOps), ref)
    {
      var kept: seq<SyncOp> := [];
      var i := 0;
      while i < |syncOps|
        invariant 0 <= i <= |syncOps| && syncOps == old(syncOps)
        invariant kept == Without(syncOps[..i], ref)
      {
        assert syncOps[..i + 1][..i] == syncOps[..i];
        if syncOps[i].ref != ref {
          kept := kept + [syncOps[i]];
        }
        i := i + 1;
      }
      assert syncOps[..i] == syncOps;
      syncOps := kept;
    }
  }

  // ------------------------------------------------------------------ what the log holds

  datatype Call = Insert(op: SyncOp) | Wake(ref: nat)

  /** The log after a history of calls. */
  function LogOf(h: seq<Call>): seq<SyncOp> {
    if h == [] then []
    else
      var before := LogOf(h[..|h| - 1]);
      match h[|h| - 1]
      case Insert(op) => before + [op]
      case Wake(ref) => Without(before, ref)
  }

  predicate Woken(h: seq<Call>, ref: nat) {
    exists i :: 0 <= i < |h| && h[i] == Wake(ref)
  }

  /** The inserts that no later wake-up on the same reference follows, in their original order. */
  function Survivors(h: seq<Call>): seq<SyncOp> {
    if h == [] then []
    else
      (if h[0].Insert? && !Woken(h[1..], h[0].op.ref) then [h[0].op] else []) + Survivors(h[1..])
  }

  lemma {:induction false} WithoutConcat(a: seq<SyncOp>, b: seq<SyncOp>, ref: nat)
    ensures Without(a + b, ref) == Without(a, ref) + Without(b, ref)
    decreases |b|
  {
    if b == [] {
      assert a + b == a;
    } else {
      assert (a + b)[..|a + b| - 1] == a + b[..|b| - 1];
      WithoutConcat(a, b[..|b| - 1], ref);
    }
  }

  lemma {:induction false} SurvivorsInsert(h: seq<Call>, op: SyncOp)
    ensures Survivors(h + [Insert(op)]) == Survivors(h) + [op]
  {
    if h == [] {
      assert h + [Insert(op)] == [Insert(op)] && [Insert(op)][1..] == [];
    } else {
      var h' := h + [Insert(op)];
      assert h'[1..] == h[1..] + [Insert(op)];
      assert forall r :: Woken(h'[1..], r) <==> Woken(h[1..], r) by {
        assert forall i :: 0 <= i < |h[1..]| ==> h'[1..][i] == h[1..][i];
      }
      SurvivorsInsert(h[1..], op);
    }
  }

  lemma {:induction false} SurvivorsWake(h: seq<Call>, ref: nat)
    ensures Survivors(h + [Wake(ref)]) == Without(Survivors(h), ref)
  {
    if h == [] {
      assert h + [Wake(ref)] == [Wake(ref)] && [Wake(ref)][1..] == [];
    } else {
      var h' := h + [Wake(ref)];
      assert h'[1..] == h[1..] + [Wake(ref)];
      SurvivorsWake(h[1..], ref);
      WokenAfterWake(h[1..], ref);
      var first := if h[0].Insert? && !Woken(h[1..], h[0].op.ref) then [h[0].op] else [];
      WithoutConcat(first, Survivors(h[1..]), ref);
      assert first != [] ==> first[..0] == [];
    }
  }

  lemma {:induction false} WokenAfterWake(h: seq<Call>, ref: nat)
    ensures forall r :: Woken(h + [Wake(ref)], r) <==> Woken(h, r) || r == ref
  {
    var h' := h + [Wake(ref)];
    forall r
      ensures Woken(h', r) <==> Woken(h, r) || r == ref
    {
      assert h'[|h|] == Wake(ref);
      assert forall i :: 0 <= i < |h| ==> h'[i] == h[i];
    }
  }

  /** After any history, the log is exactly the surviving inserts. */
  lemma {:induction false} LogIsSurvivors(h: seq<Call>)
    ensures LogOf(h) == Survivors(h)
  {
    if h == [] {
    } else {
      var before := h[..|h| - 1];
      LogIsSurvivors(before);
      assert h == before + [h[|h| - 1]];
      match h[|h| - 1] {
        case Insert(op) => SurvivorsInsert(before, op);
        case Wake(ref) => SurvivorsWake(before, ref);
      }
    }
  }

  /** The entries that the recorder can make. */
  predicate Recordable(op: SyncOp) {
    match op.kind
    case AtomicWait => true
    case AtomicNotify => !op.wait64
    case _ => op.expected == 0 && !op.wait64
  }

  /** Any history, recorded call by call. */
  method RecordAll(h: seq<Call>) returns (log: seq<SyncOp>)
    requires forall i :: 0 <= i < |h| && h[i].Insert? ==> Recordable(h[i].op)
    ensures log == Survivors(h)
  {
    var recorder := new Recorder();
    var i := 0;
    while i < |h|
      invariant 0 <= i <= |h| && fresh(recorder)
      invariant recorder.syncOps == LogOf(h[..i])
    {
      assert h[..i + 1][..i] == h[..i];
      match h[i] {
        case Wake(ref) => recorder.InsertAtomicWake(ref);
        case Insert(op) =>
          if op.kind == AtomicWait {
            recorder.InsertAtomicWait(op.tid, op.ref, op.expected, op.wait64);
          } else if op.kind == AtomicNotify {
            recorder.InsertAtomicNotify(op.tid, op.ref, op.expected);
          } else {
            recorder.InsertSyncOp(op.tid, op.ref, op.kind);
          }
      }
      i := i + 1;
    }
    assert h[..i] == h;
    LogIsSurvivors(h);
    log := recorder.syncOps;
  }

  // ------------------------------------------------------------------ mutex ownership

  /** A mutex as a log of operations leaves it; Bad after a lock of a held mutex or an unlock by a
      thread that does not hold it. */
  datatype Mutex = Free | Held(tid: nat) | Bad

  function Apply(m: Mutex, op: SyncOp, ref: nat): Mutex {
    if op.ref != ref then m
    else
      match op.kind
      case MutexLock => if m == Free then Held(op.tid) else Bad
      case MutexUnlock => if m == Held(op.tid) then Free else Bad
      case _ => m
  }

  function MutexAfter(log: seq<SyncOp>, ref: nat): Mutex {
    if log == [] then Free else Apply(MutexAfter(log[..|log| - 1], ref), log[|log| - 1], ref)
  }

  /** A log that locking threads could have produced. */
  ghost predicate Legal(log: seq<SyncOp>) {
    forall ref: nat :: MutexAfter(log, ref) != Bad
  }

  lemma {:induction false} LegalPrefix(log: seq<SyncOp>, n: nat)
    requires Legal(log) && n <= |log|
    ensures Legal(log[..n])
    decreases |log|
  {
    if n == |log| {
      assert log[..n] == log;
    } else {
      var init := log[..|log| - 1];
      forall ref: nat
        ensures MutexAfter(init, ref) != Bad
      {
        assert MutexAfter(log, ref) == Apply(MutexAfter(init, ref), log[|log| - 1], ref);
      }
      LegalPrefix(init, n);
      assert init[..n] == log[..n];
    }
  }

  /** All operations of a history, wake-ups left aside: what the threads really did. */
  function Inserted(h: seq<Call>): seq<SyncOp> {
    if h == [] then []
    else Inserted(h[..|h| - 1]) + (if h[|h| - 1].Insert? then [h[|h| - 1].op] else [])
  }

  /** The mutex was free when its reference was last woken. */
  predicate FreeAtLastWake(h: seq<Call>, ref: nat) {
    if h == [] then true
    else if h[|h| - 1] == Wake(ref) then MutexAfter(Inserted(h), ref) == Free
    else FreeAtLastWake(h[..|h| - 1], ref)
  }

  lemma {:induction false} MutexAfterWithout(log: seq<SyncOp>, r: nat, ref: nat)
    ensures MutexAfter(Without(log, r), ref) == if r == ref then Free else MutexAfter(log, ref)
  {
    if log == [] {
    } else {
      var init := log[..|log| - 1];
      MutexAfterWithout(init, r, ref);
      if log[|log| - 1].ref == r {
        assert Without(log, r) == Without(init, r);
      } else {
        MutexAfterSnoc(Without(init, r), log[|log| - 1], ref);
      }
    }
  }

  lemma {:induction false} MutexAfterSnoc(log: seq<SyncOp>, op: SyncOp, ref: nat)
    ensures MutexAfter(log + [op], ref) == Apply(MutexAfter(log, ref), op, ref)
  {
    assert (log + [op])[..|log|] == log;
  }

  /** How a compacted mutex that differs from the real one can look. */
  predicate Lost(compacted: Mutex, actual: Mutex) {
    compacted == Bad || (compacted == Free && actual.Held?)
  }

  lemma {:induction false} WakeCase(h: seq<Call>, r: nat, ref: nat)
    requires h != [] && h[|h| - 1] == Wake(r)
    ensures var before := h[..|h| - 1];
      && Inserted(h) == Inserted(before)
      && MutexAfter(LogOf(h), ref) == (if r == ref then Free else MutexAfter(LogOf(before), ref))
      && FreeAtLastWake(h, ref) ==
         (if r == ref then MutexAfter(Inserted(before), ref) == Free else FreeAtLastWake(before, ref))
  {
    MutexAfterWithout(LogOf(h[..|h| - 1]), r, ref);
  }

  /** What compaction does to a mutex, told by the state at the last wake-up. */
  ghost predicate Told(compacted: Mutex, actual: Mutex, free: bool) {
    (compacted == actual <==> free) && (!free ==> Lost(compacted, actual))
  }

  ghost predicate HistoryTold(h: seq<Call>, ref: nat) {
    Told(MutexAfter(LogOf(h), ref), MutexAfter(Inserted(h), ref), FreeAtLastWake(h, ref))
  }

  lemma {:induction false} ToldAfterInsert(h: seq<Call>, op: SyncOp, ref: nat)
    requires h != [] && h[|h| - 1] == Insert(op) && MutexAfter(Inserted(h), ref) != Bad
    ensures MutexAfter(Inserted(h[..|h| - 1]), ref) != Bad
    ensures HistoryTold(h[..|h| - 1], ref) ==> HistoryTold(h, ref)
  {
  }

  lemma {:induction false} ToldAfterWake(h: seq<Call>, r: nat, ref: nat)
    requires h != [] && h[|h| - 1] == Wake(r) && MutexAfter(Inserted(h), ref) != Bad
    ensures MutexAfter(Inserted(h[..|h| - 1]), ref) != Bad
    ensures HistoryTold(h[..|h| - 1], ref) ==> HistoryTold(h, ref)
  {
    WakeCase(h, r, ref);
  }

  /** Compaction keeps what a legal history says about a mutex exactly when the mutex was free at
      the last wake-up on its reference; otherwise the compacted log loses the holder or is no
      longer legal. */
  lemma {:induction false} CompactionExact(h: seq<Call>, ref: nat)
    requires MutexAfter(Inserted(h), ref) != Bad
    ensures MutexAfter(LogOf(h), ref) == MutexAfter(Inserted(h), ref) <==> FreeAtLastWake(h, ref)
    ensures !FreeAtLastWake(h, ref) ==> Lost(MutexAfter(LogOf(h), ref), MutexAfter(Inserted(h), ref))
  {
    HistoriesTold(h, ref);
  }

  lemma {:induction false} HistoriesTold(h: seq<Call>, ref: nat)
    requires MutexAfter(Inserted(h), ref) != Bad
    ensures HistoryTold(h, ref)
  {
    if h == [] {
    } else {
      match h[|h| - 1] {
        case Insert(op) => ToldAfterInsert(h, op, ref);
        case Wake(r) => ToldAfterWake(h, r, ref);
      }
      HistoriesTold(h[..|h| - 1], ref);
    }
  }

  /** The shortest history that loses a holder: a lock, then a wake-up on the same reference. */
  lemma {:induction false} WakeLosesHolder(tid: nat, ref: nat)
    ensures var h := [Insert(SyncOp(tid, ref, MutexLock, 0, false)), Wake(ref)];
      && MutexAfter(Inserted(h), ref) == Held(tid)
      && !FreeAtLastWake(h, ref)
      && LogOf(h) == [] && MutexAfter(LogOf(h), ref) == Free
  {
    var op := SyncOp(tid, ref, MutexLock, 0, false);
    var h := [Insert(op), Wake(ref)];
    assert h[..1] == [Insert(op)] && h[..1][..0] == [];
    assert Inserted(h[..1]) == [] + [op] == [op] && [op][..0] == [];
    assert Inserted(h) == Inserted(h[..1]) + [];
    assert LogOf(h[..1]) == [] + [op];
    assert Without([op], ref) == [];
  }
}
