/** From the calls of a running program to the mutexes after a restore: recording with compaction,
    renaming, and replay, against what the threads really held. */
module SyncOutcome {
  import opened Basics
  import opened SyncLog
  import opened SyncReplay

  /** One mutex of a replay.  Unlike in a legal log, an unlock by another thread returns without
      effect; Bad stands for an entry that blocks. */
  function Redo(m: Mutex, op: SyncOp, ref: nat): Mutex {
    if op.ref != ref || m == Bad then m
    else
      match op.kind
      case MutexLock => if m == Free then Held(op.tid) else Bad
      case MutexUnlock => if m == Held(op.tid) then Free else m
      case _ => m
  }

  /** The mutex after the entries of a log, renamed and performed in order. */
  function Redone(log: seq<SyncOp>, tidMap: map<Tid, Tid>, ref: nat): Mutex {
    if log == [] then Free
    else
      var last := |log| - 1;
      Redo(Redone(log[..last], tidMap, ref), RenamedOp(log[last], tidMap), ref)
  }

  lemma {:induction false} RedoneSnoc(log: seq<SyncOp>, op: SyncOp, tidMap: map<Tid, Tid>, ref: nat)
    ensures Redone(log + [op], tidMap, ref) == Redo(Redone(log, tidMap, ref), RenamedOp(op, tidMap), ref)
  {
    assert (log + [op])[..|log|] == log;
  }

  // ------------------------------------------------------------------ mutexes one by one

  lemma {:induction false} RenamedInit(log: seq<SyncOp>, tidMap: map<Tid, Tid>)
    requires log != []
    ensures var last := |log| - 1;
      Renamed(log, tidMap)[..last] == Renamed(log[..last], tidMap)
      && Renamed(log, tidMap)[last] == RenamedOp(log[last], tidMap)
  {
  }

  /** A performed entry does to each mutex what Redo says, and blocks at no other than its own. */
  lemma {:induction false} PerformRedo(owners: map<nat, Tid>, op: SyncOp, ref: nat)
    ensures Perform(owners, op).Some? ==>
      OwnerState(Perform(owners, op).value, ref) == Redo(OwnerState(owners, ref), op, ref) != Bad
    ensures Perform(owners, op).None? ==> Redo(OwnerState(owners, op.ref), op, op.ref) == Bad
  {
  }

  /** Performing the whole log, seen from one mutex. */
  lemma {:induction false} AfterRedone(log: seq<SyncOp>, tidMap: map<Tid, Tid>, ref: nat)
    requires After(Renamed(log, tidMap)).Some?
    ensures OwnerState(After(Renamed(log, tidMap)).value, ref) == Redone(log, tidMap, ref) != Bad
  {
    if log == [] {
    } else {
      var last := |log| - 1;
      RenamedInit(log, tidMap);
      AfterRedone(log[..last], tidMap, ref);
      PerformRedo(After(Renamed(log[..last], tidMap)).value, RenamedOp(log[last], tidMap), ref);
    }
  }

  /** A log that blocks at no mutex can be performed. */
  lemma {:induction false} RedoneReturns(log: seq<SyncOp>, tidMap: map<Tid, Tid>)
    requires forall ref: nat :: Redone(log, tidMap, ref) != Bad
    ensures After(Renamed(log, tidMap)).Some?
  {
    if log == [] {
    } else {
      var last := |log| - 1;
      var op := RenamedOp(log[last], tidMap);
      RenamedInit(log, tidMap);
      forall ref: nat
        ensures Redone(log[..last], tidMap, ref) != Bad
      {
        assert Redone(log, tidMap, ref) != Bad;
      }
      RedoneReturns(log[..last], tidMap);
      AfterRedone(log[..last], tidMap, op.ref);
      PerformRedo(After(Renamed(log[..last], tidMap)).value, op, op.ref);
      assert Redone(log, tidMap, op.ref) != Bad;
    }
  }

  // ------------------------------------------------------------------ what compaction does

  lemma {:induction false} RedoneWithout(log: seq<SyncOp>, r: nat, tidMap: map<Tid, Tid>, ref: nat)
    ensures Redone(Without(log, r), tidMap, ref) == if r == ref then Free else Redone(log, tidMap, ref)
  {
    if log == [] {
    } else {
      var init, last := log[..|log| - 1], log[|log| - 1];
      RedoneWithout(init, r, tidMap, ref);
      if last.ref == r {
        assert Without(log, r) == Without(init, r);
      } else {
        RedoneSnoc(Without(init, r), last, tidMap, ref);
      }
    }
  }

  /** Some thread held the mutex when its reference was last woken, and has not unlocked it since. */
  predicate HeldSinceWake(h: seq<Call>, ref: nat) {
    if h == [] then false
    else
      var before := h[..|h| - 1];
      match h[|h| - 1]
      case Wake(r) => if r == ref then MutexAfter(Inserted(before), ref).Held? else HeldSinceWake(before, ref)
      case Insert(op) => !(op.ref == ref && op.kind == MutexUnlock) && HeldSinceWake(before, ref)
  }

  /** The mutex after the replay, beside the one of the running program. */
  predicate Agreed(redone: Mutex, actual: Mutex, tidMap: map<Tid, Tid>, lost: bool) {
    if lost then redone == Free && actual.Held? else redone == Image(actual, tidMap)
  }

  /** A legal operation keeps the two mutexes in agreement; an unlock ends a loss. */
  lemma {:induction false} AgreedInsert(redone: Mutex, actual: Mutex, tidMap: map<Tid, Tid>, lost: bool,
                                        op: SyncOp, ref: nat)
    requires Agreed(redone, actual, tidMap, lost) && Apply(actual, op, ref) != Bad
    ensures Agreed(Redo(redone, RenamedOp(op, tidMap), ref), Apply(actual, op, ref), tidMap,
                   lost && !(op.ref == ref && op.kind == MutexUnlock))
  {
  }

  /** Replaying the compacted log of a legal history leaves each mutex with the image of its holder,
      or free if the holder has kept it since the last wake-up on its reference. */
  lemma {:induction false} HistoryAgreed(h: seq<Call>, tidMap: map<Tid, Tid>, ref: nat)
    requires MutexAfter(Inserted(h), ref) != Bad
    ensures Agreed(Redone(LogOf(h), tidMap, ref), MutexAfter(Inserted(h), ref), tidMap, HeldSinceWake(h, ref))
  {
    if h == [] {
    } else {
      var before := h[..|h| - 1];
      match h[|h| - 1] {
        case Insert(op) =>
          MutexAfterSnoc(Inserted(before), op, ref);
          RedoneSnoc(LogOf(before), op, tidMap, ref);
          HistoryAgreed(before, tidMap, ref);
          AgreedInsert(Redone(LogOf(before), tidMap, ref), MutexAfter(Inserted(before), ref), tidMap,
                       HeldSinceWake(before, ref), op, ref);
        case Wake(r) =>
          assert Inserted(h) == Inserted(before);
          RedoneWithout(LogOf(before), r, tidMap, ref);
          HistoryAgreed(before, tidMap, ref);
      }
    }
  }

  /** Compaction never makes a replay block: the compacted log of a legal history returns at every
      entry, whatever was woken and however threads are renamed. */
  lemma {:induction false} CompactedReturns(h: seq<Call>, tidMap: map<Tid, Tid>)
    requires Legal(Inserted(h))
    ensures After(Renamed(LogOf(h), tidMap)).Some?
  {
    forall ref: nat
      ensures Redone(LogOf(h), tidMap, ref) != Bad
    {
      HistoryAgreed(h, tidMap, ref);
    }
    RedoneReturns(LogOf(h), tidMap);
  }

  // ------------------------------------------------------------------ from the history to the end of the replay

  ghost predicate ReplaysHistory(x: Setup, h: seq<Call>) {
    x.Valid() && x.log == LogOf(h) && Legal(Inserted(h))
  }

  /** Whoever leaves the replay finds a mutex held by the image of the thread that really held it
      exactly if that thread has not kept it since the last wake-up on its reference; a mutex that was
      so kept is free. */
  lemma {:induction false} ReplayOfHistory(x: Setup, h: seq<Call>, schedule: seq<Tid>, s: State, t: Tid, ref: nat)
    requires ReplaysHistory(x, h) && Leads(x, Init(x), schedule, s)
    requires t in x.team && t in s.pc && s.pc[t].Done?
    ensures OwnerState(s.owners, ref) == Image(MutexAfter(Inserted(h), ref), x.tidMap) <==> !HeldSinceWake(h, ref)
    ensures OwnedAs(s.owners, ref, MutexAfter(Inserted(h), ref), x.tidMap) <==> !HeldSinceWake(h, ref)
    ensures HeldSinceWake(h, ref) ==> ref !in s.owners && MutexAfter(Inserted(h), ref).Held?
  {
    InitOk(x);
    ReachableOk(x, schedule, Init(x), s);
    DoneOwners(x, s, t);
    AfterRedone(LogOf(h), x.tidMap, ref);
    HistoryAgreed(h, x.tidMap, ref);
  }

  /** And the replay can always be brought to its end. */
  lemma {:induction false} HistoryFinishes(x: Setup, h: seq<Call>, schedule: seq<Tid>, s: State)
      returns (more: seq<Tid>, s': State)
    requires ReplaysHistory(x, h) && Staffed(x) && Leads(x, Init(x), schedule, s)
    ensures Ends(x, s, more, s')
  {
    InitOk(x);
    ReachableOk(x, schedule, Init(x), s);
    CompactedReturns(h, x.tidMap);
    more, s' := CanFinish(x, s);
  }

  /** A loss that heals: lock, wake-up, unlock.  A strict reading of the compacted log calls it
      illegal, but the replay leaves the mutex free, as it is. */
  lemma {:induction false} UnlockHeals(tid: nat, ref: nat)
    ensures var lock, unlock := SyncOp(tid, ref, MutexLock, 0, false), SyncOp(tid, ref, MutexUnlock, 0, false);
      var h := [Insert(lock), Wake(ref), Insert(unlock)];
      && MutexAfter(Inserted(h), ref) == Free && !HeldSinceWake(h, ref)
      && !FreeAtLastWake(h, ref) && LogOf(h) == [unlock] && MutexAfter(LogOf(h), ref) == Bad
  {
    var lock, unlock := SyncOp(tid, ref, MutexLock, 0, false), SyncOp(tid, ref, MutexUnlock, 0, false);
    var h := [Insert(lock), Wake(ref), Insert(unlock)];
    WakeLosesHolder(tid, ref);
    assert h[..2] == [Insert(lock), Wake(ref)];
    assert LogOf(h) == [] + [unlock] && [unlock][..0] == [];
    MutexAfterSnoc(Inserted(h[..2]), unlock, ref);
  }
}
