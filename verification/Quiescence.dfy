/** Bringing all threads to a safe point before a snapshot.  Each thread is a program of small
    steps that share a mutex, the counter `ready` and the per-thread counts `lwcp`; a run is any
    interleaving of a fixed set of threads.  A thread waits on a condition variable of its own, so
    a wait never ends (there are no spurious wake-ups). */
module Quiescence {
  import opened Basics

  type Tid = nat

  /** Where a thread is.  The states between two lines hold the mutex. */
  datatype Pc =
    | Wasm                                        // running WebAssembly code
    | CpCount | CpReady                           // lightweight_checkpoint
    | Native                                      // inside a native region
    | UnTest | UnReady                            // lightweight_uncheckpoint
    | Blocked                                     // waiting because its count was reset
    | SerReady | SerCount | SerFlag | SerTest     // serialize_to_file
    | Parked                                      // waiting for another thread to take the snapshot
    | Dumping                                     // taking the snapshot; the mutex stays held
  {
    predicate HoldsLock() {
      CpCount? || CpReady? || UnTest? || UnReady? || SerReady? || SerCount? || SerFlag? || SerTest? || Dumping?
    }
    /** The thread's own count has been raised. */
    predicate Listed() { CpReady? || Native? || UnTest? || SerFlag? || SerTest? || Parked? || Dumping? }
    /** The thread has been added to `ready`. */
    predicate IsReady() { Native? || UnTest? || UnReady? || SerCount? || SerFlag? || SerTest? || Parked? || Dumping? }
  }

  datatype State = State(lock: Option<Tid>, ready: int, lwcp: map<Tid, int>, shouldSnapshot: bool, pc: map<Tid, Pc>)

  /** A missing entry reads as zero. */
  function Get(m: map<Tid, int>, t: Tid): int { if t in m then m[t] else 0 }

  function Init(threads: set<Tid>): State {
    State(None, 0, map[], false, map t | t in threads :: Wasm)
  }

  /** One step of thread `t`; `snapshot` says whether running code enters serialize_to_file or a
      native region next.  None means that the thread cannot run. */
  function Next(threads: set<Tid>, s: State, t: Tid, snapshot: bool): Option<State>
    requires s.pc.Keys == threads && t in threads
  {
    match s.pc[t]
    case Wasm =>
      if s.lock.Some? then None
      else Some(s.(lock := Some(t), pc := s.pc[t := if snapshot then SerReady else CpCount]))
    case CpCount => Some(s.(lwcp := s.lwcp[t := Get(s.lwcp, t) + 1], pc := s.pc[t := CpReady]))
    case CpReady => Some(s.(lock := None, ready := s.ready + 1, pc := s.pc[t := Native]))
    case Native =>
      if s.lock.Some? then None else Some(s.(lock := Some(t), pc := s.pc[t := UnTest]))
    case UnTest =>
      if Get(s.lwcp, t) == 0 then Some(s.(lock := None, pc := s.pc[t := Blocked]))
      else Some(s.(lwcp := s.lwcp[t := Get(s.lwcp, t) - 1], pc := s.pc[t := UnReady]))
    case UnReady => Some(s.(lock := None, ready := s.ready - 1, pc := s.pc[t := Wasm]))
    case SerReady => Some(s.(ready := s.ready + 1, pc := s.pc[t := SerCount]))
    case SerCount => Some(s.(lwcp := s.lwcp[t := Get(s.lwcp, t) + 1], pc := s.pc[t := SerFlag]))
    case SerFlag =>
      Some(s.(shouldSnapshot := s.shouldSnapshot || s.ready == |threads|, pc := s.pc[t := SerTest]))
    case SerTest =>
      if s.ready < |threads| then Some(s.(lock := None, pc := s.pc[t := Parked]))
      else Some(s.(pc := s.pc[t := Dumping]))
    case Blocked => None
    case Parked => None
    case Dumping => None
  }

  ghost predicate IsRun(threads: set<Tid>, run: seq<State>, who: seq<Tid>, wants: seq<bool>) {
    && |run| == |who| + 1 && |wants| == |who| && run[0] == Init(threads)
    && (forall i :: 0 <= i < |run| ==> run[i].pc.Keys == threads)
    && forall i :: 0 <= i < |who| ==> who[i] in threads && Next(threads, run[i], who[i], wants[i]) == Some(run[i + 1])
  }

  // ------------------------------------------------------------------ the invariant

  ghost function ReadySet(threads: set<Tid>, pc: map<Tid, Pc>): set<Tid>
    requires pc.Keys == threads
  {
    set t | t in threads && pc[t].IsReady()
  }

  /** The mutex is held by exactly the thread inside a critical section. */
  ghost predicate LockOk(threads: set<Tid>, s: State) {
    && s.pc.Keys == threads
    && (forall t | t in threads :: s.pc[t].HoldsLock() <==> s.lock == Some(t))
    && (s.lock.Some? ==> s.lock.value in threads)
  }

  /** A thread's count is 1 while it is listed and 0 otherwise; in particular it is never reset. */
  ghost predicate CountsOk(threads: set<Tid>, s: State) {
    && s.pc.Keys == threads
    && (forall t | t in threads :: !s.pc[t].Blocked?)
    && (forall t | t in threads :: Get(s.lwcp, t) == if s.pc[t].Listed() then 1 else 0)
  }

  /** `ready` counts the ready threads; the snapshot waits for all of them and raises the flag. */
  ghost predicate ReadyOk(threads: set<Tid>, s: State) {
    && s.pc.Keys == threads
    && s.ready == |ReadySet(threads, s.pc)|
    && (forall t | t in threads && s.pc[t].Dumping? :: s.ready == |threads| && s.shouldSnapshot)
    && (forall t | t in threads && s.pc[t].SerTest? && s.ready == |threads| :: s.shouldSnapshot)
  }

  /** Outside critical sections, not every thread is parked. */
  ghost predicate Awake(threads: set<Tid>, s: State) {
    s.pc.Keys == threads && (s.lock.None? && threads != {} ==> exists t :: t in threads && !s.pc[t].Parked?)
  }

  /** The flag is up only while a thread takes the snapshot, or is about to, with all threads counted. */
  ghost predicate FlagOk(threads: set<Tid>, s: State) {
    && s.pc.Keys == threads
    && (s.shouldSnapshot ==>
          s.ready == |threads| && s.lock.Some? && s.lock.value in threads
          && (s.pc[s.lock.value].SerTest? || s.pc[s.lock.value].Dumping?))
  }

  ghost predicate Inv(threads: set<Tid>, s: State) {
    LockOk(threads, s) && CountsOk(threads, s) && ReadyOk(threads, s) && Awake(threads, s) && FlagOk(threads, s)
  }

  lemma {:induction false} ReadySetStep(threads: set<Tid>, pc: map<Tid, Pc>, t: Tid, now: Pc)
    requires pc.Keys == threads && t in threads
    ensures pc[t := now].Keys == threads
    ensures |ReadySet(threads, pc[t := now])| == |ReadySet(threads, pc)|
      + (if now.IsReady() then 1 else 0) - (if pc[t].IsReady() then 1 else 0)
  {
    assert pc[t := now].Keys == threads;
    OthersReady(threads, pc, t);
    OthersReady(threads, pc[t := now], t);
    assert ReadySet(threads, pc) - {t} == ReadySet(threads, pc[t := now]) - {t};
  }

  lemma {:induction false} OthersReady(threads: set<Tid>, pc: map<Tid, Pc>, t: Tid)
    requires pc.Keys == threads && t in threads
    ensures |ReadySet(threads, pc)| == |ReadySet(threads, pc) - {t}| + (if pc[t].IsReady() then 1 else 0)
  {
    var ready := ReadySet(threads, pc);
    if pc[t].IsReady() {
      assert t in ready && ready == (ready - {t}) + {t};
    } else {
      assert t !in ready && ready == ready - {t};
    }
  }

  lemma {:induction false} ReadyAtMost(threads: set<Tid>, pc: map<Tid, Pc>)
    requires pc.Keys == threads
    ensures |ReadySet(threads, pc)| <= |threads|
    ensures |ReadySet(threads, pc)| == |threads| ==> ReadySet(threads, pc) == threads
  {
    var ready := ReadySet(threads, pc);
    assert threads == ready + (threads - ready);
  }

  /** A step moves one thread. */
  lemma {:induction false} PcStep(threads: set<Tid>, s: State, t: Tid, snapshot: bool, s': State)
    requires s.pc.Keys == threads && t in threads && Next(threads, s, t, snapshot) == Some(s')
    ensures s'.pc.Keys == threads && s'.pc == s.pc[t := s'.pc[t]]
  {
  }

  /** It takes the mutex, keeps it or gives it up as its new place demands. */
  lemma {:induction false} OwnLockStep(threads: set<Tid>, s: State, t: Tid, snapshot: bool, s': State)
    requires LockOk(threads, s) && t in threads && Next(threads, s, t, snapshot) == Some(s')
    ensures s'.pc.Keys == threads
    ensures s.lock == None || s.lock == Some(t)
    ensures s'.lock == if s'.pc[t].HoldsLock() then Some(t) else None
  {
    PcStep(threads, s, t, snapshot, s');
  }

  lemma {:induction false} LockStep(threads: set<Tid>, s: State, t: Tid, snapshot: bool, s': State)
    requires LockOk(threads, s) && t in threads && Next(threads, s, t, snapshot) == Some(s')
    ensures LockOk(threads, s') && s'.pc == s.pc[t := s'.pc[t]]
  {
    PcStep(threads, s, t, snapshot, s');
    OwnLockStep(threads, s, t, snapshot, s');
  }

  /** The thread's own count is as its place demands. */
  predicate CountOk(s: State, t: Tid)
    requires t in s.pc
  {
    !s.pc[t].Blocked? && Get(s.lwcp, t) == if s.pc[t].Listed() then 1 else 0
  }

  /** A step keeps it so. */
  lemma {:induction false} OwnCount(threads: set<Tid>, s: State, t: Tid, snapshot: bool, s': State)
    requires s.pc.Keys == threads && t in threads && CountOk(s, t) && Next(threads, s, t, snapshot) == Some(s')
    ensures t in s'.pc && CountOk(s', t)
  {
  }

  lemma {:induction false} OtherCounts(threads: set<Tid>, s: State, t: Tid, snapshot: bool, s': State, u: Tid)
    requires s.pc.Keys == threads && t in threads && Next(threads, s, t, snapshot) == Some(s') && u != t
    ensures Get(s'.lwcp, u) == Get(s.lwcp, u)
  {
  }

  lemma {:induction false} CountsStep(threads: set<Tid>, s: State, t: Tid, snapshot: bool, s': State)
    requires CountsOk(threads, s) && t in threads && Next(threads, s, t, snapshot) == Some(s')
    ensures CountsOk(threads, s')
  {
    PcStep(threads, s, t, snapshot, s');
    OwnCount(threads, s, t, snapshot, s');
    forall u | u in threads
      ensures !s'.pc[u].Blocked? && Get(s'.lwcp, u) == if s'.pc[u].Listed() then 1 else 0
    {
      if u != t {
        OtherCounts(threads, s, t, snapshot, s', u);
      }
    }
  }

  /** A step changes `ready` as it changes the thread's readiness. */
  lemma {:induction false} OwnReady(threads: set<Tid>, s: State, t: Tid, snapshot: bool, s': State)
    requires s.pc.Keys == threads && t in threads && CountOk(s, t) && Next(threads, s, t, snapshot) == Some(s')
    ensures t in s'.pc
    ensures s'.ready == s.ready + (if s'.pc[t].IsReady() then 1 else 0) - (if s.pc[t].IsReady() then 1 else 0)
    ensures s'.pc[t].Dumping? ==>
      s.pc[t].SerTest? && s'.ready == s.ready >= |threads| && s'.shouldSnapshot == s.shouldSnapshot
    ensures s'.pc[t].SerTest? && s'.ready == |threads| ==> s'.shouldSnapshot
  {
  }

  /** Nobody else is between two steps of a critical section. */
  lemma {:induction false} OthersOutside(threads: set<Tid>, s: State, t: Tid, snapshot: bool, s': State)
    requires LockOk(threads, s) && t in threads && Next(threads, s, t, snapshot) == Some(s')
    ensures s'.pc.Keys == threads && forall u | u in threads && u != t :: !s'.pc[u].HoldsLock()
  {
    LockStep(threads, s, t, snapshot, s');
    assert s'.lock == Some(t) || s'.lock == None;
  }

  lemma {:induction false} ReadyStep(threads: set<Tid>, s: State, t: Tid, snapshot: bool, s': State)
    requires LockOk(threads, s) && CountsOk(threads, s) && ReadyOk(threads, s)
    requires t in threads && Next(threads, s, t, snapshot) == Some(s')
    ensures ReadyOk(threads, s')
  {
    PcStep(threads, s, t, snapshot, s');
    OwnReady(threads, s, t, snapshot, s');
    ReadySetStep(threads, s.pc, t, s'.pc[t]);
    ReadyAtMost(threads, s.pc);
    OthersOutside(threads, s, t, snapshot, s');
  }

  lemma {:induction false} AwakeStep(threads: set<Tid>, s: State, t: Tid, snapshot: bool, s': State)
    requires Inv(threads, s) && t in threads && Next(threads, s, t, snapshot) == Some(s')
    ensures Awake(threads, s')
  {
    LockStep(threads, s, t, snapshot, s');
    ReadyAtMost(threads, s.pc);
    if s'.lock.None? && s'.pc[t].Parked? {
      var u := NotReady(threads, s.pc);
      assert u != t && s'.pc[u] == s.pc[u];
    }
  }

  lemma {:induction false} NotReady(threads: set<Tid>, pc: map<Tid, Pc>) returns (u: Tid)
    requires pc.Keys == threads && |ReadySet(threads, pc)| < |threads|
    ensures u in threads && !pc[u].IsReady()
  {
    if ReadySet(threads, pc) == threads {
      assert false;
    }
    u :| u in threads && u !in ReadySet(threads, pc);
  }

  /** Raising the flag needs all threads; once it is up only the thread that raised it can move. */
  lemma {:induction false} FlagStep(threads: set<Tid>, s: State, t: Tid, snapshot: bool, s': State)
    requires LockOk(threads, s) && FlagOk(threads, s) && t in threads && Next(threads, s, t, snapshot) == Some(s')
    ensures FlagOk(threads, s')
  {
    OwnLockStep(threads, s, t, snapshot, s');
  }

  lemma {:induction false} InvStep(threads: set<Tid>, s: State, t: Tid, snapshot: bool, s': State)
    requires Inv(threads, s) && t in threads && Next(threads, s, t, snapshot) == Some(s')
    ensures Inv(threads, s')
  {
    LockStep(threads, s, t, snapshot, s');
    CountsStep(threads, s, t, snapshot, s');
    ReadyStep(threads, s, t, snapshot, s');
    AwakeStep(threads, s, t, snapshot, s');
    FlagStep(threads, s, t, snapshot, s');
  }

  /** Every state of every interleaving satisfies the invariant. */
  lemma {:induction false} InvRun(threads: set<Tid>, run: seq<State>, who: seq<Tid>, wants: seq<bool>, i: nat)
    requires IsRun(threads, run, who, wants) && i < |run|
    ensures Inv(threads, run[i])
  {
    if i == 0 {
      assert ReadySet(threads, run[0].pc) == {};
      if threads != {} {
        var t :| t in threads;
        assert !run[0].pc[t].Parked?;
      }
    } else {
      InvRun(threads, run, who, wants, i - 1);
      assert Next(threads, run[i - 1], who[i - 1], wants[i - 1]) == Some(run[i]);
      InvStep(threads, run[i - 1], who[i - 1], wants[i - 1], run[i]);
    }
  }

  // ------------------------------------------------------------------ what the protocol guarantees

  ghost function Sum(ts: set<Tid>, m: map<Tid, int>): int
    decreases ts
  {
    if ts == {} then 0 else
    var t :| t in ts;
    Get(m, t) + Sum(ts - {t}, m)
  }

  lemma {:induction false} SumCounts(ts: set<Tid>, m: map<Tid, int>, ones: set<Tid>)
    requires forall t | t in ts :: Get(m, t) == if t in ones then 1 else 0
    ensures Sum(ts, m) == |ts * ones|
    decreases ts
  {
    if ts == {} {
      assert ts * ones == {};
    } else {
      var t :| t in ts && Sum(ts, m) == Get(m, t) + Sum(ts - {t}, m);
      SumCounts(ts - {t}, m, ones);
      if t in ones {
        assert ts * ones == (ts - {t}) * ones + {t};
      } else {
        assert ts * ones == (ts - {t}) * ones;
      }
    }
  }

  /** Whenever the mutex is free, `ready` is the sum of the per-thread counts. */
  lemma {:induction false} ReadyIsSum(threads: set<Tid>, s: State)
    requires Inv(threads, s) && s.lock.None?
    ensures s.ready == Sum(threads, s.lwcp)
  {
    var ready := ReadySet(threads, s.pc);
    forall t | t in threads
      ensures Get(s.lwcp, t) == if t in ready then 1 else 0
    {
      assert !s.pc[t].HoldsLock();
    }
    SumCounts(threads, s.lwcp, ready);
    assert threads * ready == ready;
  }

  /** While a thread takes the snapshot, every other thread is parked or in a native region. */
  lemma {:induction false} DumpsOnlyWhenQuiet(threads: set<Tid>, s: State, t: Tid, u: Tid)
    requires Inv(threads, s) && t in threads && u in threads && u != t && s.pc[t].Dumping?
    ensures s.pc[u].Native? || s.pc[u].Parked?
  {
    ReadyAtMost(threads, s.pc);
    assert u in ReadySet(threads, s.pc);
    assert !s.pc[u].HoldsLock();
  }

  /** From then on no thread takes a step: none leaves its native region, none starts a second
      snapshot. */
  lemma {:induction false} FrozenWhileDumping(threads: set<Tid>, s: State, t: Tid, u: Tid, snapshot: bool)
    requires Inv(threads, s) && t in threads && u in threads && s.pc[t].Dumping?
    ensures Next(threads, s, u, snapshot) == None
  {
    if u != t {
      DumpsOnlyWhenQuiet(threads, s, t, u);
    }
    assert s.lock == Some(t);
  }

  /** Over a whole run: when a snapshot starts, the run has reached its last state, `ready` counts all
      threads, the flag that makes the dump include the shared tables is up, and no other thread
      is, or ever will be, taking a snapshot. */
  lemma {:induction false} SnapshotEndsRun(threads: set<Tid>, run: seq<State>, who: seq<Tid>, wants: seq<bool>,
                                           i: nat, t: Tid)
    requires IsRun(threads, run, who, wants) && i < |run| && t in threads && run[i].pc[t].Dumping?
    ensures i == |run| - 1 && run[i].ready == |threads| && run[i].shouldSnapshot
    ensures forall u | u in threads && u != t :: run[i].pc[u].Native? || run[i].pc[u].Parked?
  {
    InvRun(threads, run, who, wants, i);
    forall u | u in threads && u != t
      ensures run[i].pc[u].Native? || run[i].pc[u].Parked?
    {
      DumpsOnlyWhenQuiet(threads, run[i], t, u);
    }
    if i < |who| {
      assert Next(threads, run[i], who[i], wants[i]) == Some(run[i + 1]);
      FrozenWhileDumping(threads, run[i], t, who[i], wants[i]);
    }
  }

  /** Over a whole run: the flag is up exactly while a thread has seen all threads counted and takes the
      snapshot, or is about to. */
  lemma {:induction false} FlagExact(threads: set<Tid>, run: seq<State>, who: seq<Tid>, wants: seq<bool>, i: nat)
    requires IsRun(threads, run, who, wants) && i < |run|
    ensures run[i].shouldSnapshot <==>
      run[i].ready == |threads| && exists t :: t in threads && (run[i].pc[t].SerTest? || run[i].pc[t].Dumping?)
  {
    InvRun(threads, run, who, wants, i);
  }

  /** The waiting branch for a reset count is never taken: nothing resets a count. */
  lemma {:induction false} NeverBlocked(threads: set<Tid>, run: seq<State>, who: seq<Tid>, wants: seq<bool>, i: nat,
                                        t: Tid)
    requires IsRun(threads, run, who, wants) && i < |run| && t in threads
    ensures !run[i].pc[t].Blocked?
  {
    InvRun(threads, run, who, wants, i);
  }

  /** A thread that asks for a snapshot takes it exactly when every other thread is parked or in a
      native region; otherwise it parks. */
  lemma {:induction false} SnapshotIffQuiet(threads: set<Tid>, s: State, t: Tid, snapshot: bool)
    requires Inv(threads, s) && t in threads && s.pc[t].SerTest?
    ensures Next(threads, s, t, snapshot).Some?
    ensures Next(threads, s, t, snapshot).value.pc.Keys == threads
    ensures Next(threads, s, t, snapshot).value.pc[t].Dumping? <==> s.ready >= |threads|
    ensures Next(threads, s, t, snapshot).value.pc[t].Dumping? <==>
      forall u | u in threads && u != t :: s.pc[u].Native? || s.pc[u].Parked?
    ensures !Next(threads, s, t, snapshot).value.pc[t].Dumping? ==> Next(threads, s, t, snapshot).value.pc[t].Parked?
  {
    ReadyAtMost(threads, s.pc);
    var ready := ReadySet(threads, s.pc);
    forall u | u in threads && u != t
      ensures u in ready <==> s.pc[u].Native? || s.pc[u].Parked?
    {
      assert !s.pc[u].HoldsLock();
    }
    if forall u | u in threads && u != t :: s.pc[u].Native? || s.pc[u].Parked? {
      assert ready == threads;
    }
  }

  /** The threads never lock each other out: until the snapshot starts, some thread can step. */
  lemma {:induction false} NeverStuck(threads: set<Tid>, s: State) returns (t: Tid)
    requires Inv(threads, s) && threads != {}
    requires forall u | u in threads :: !s.pc[u].Dumping?
    ensures t in threads && Next(threads, s, t, true).Some?
  {
    if s.lock.Some? {
      t := s.lock.value;
    } else {
      t :| t in threads && !s.pc[t].Parked?;
    }
  }

  // ------------------------------------------------------------------ a snapshot can always be reached

  /** The moves, each of a thread with what it wants, lead from `s` to `s'`. */
  ghost predicate Leads(threads: set<Tid>, s: State, moves: seq<(Tid, bool)>, s': State)
    decreases |moves|
  {
    s.pc.Keys == threads &&
    if moves == [] then s == s'
    else
      && moves[0].0 in threads && Next(threads, s, moves[0].0, moves[0].1).Some?
      && Leads(threads, Next(threads, s, moves[0].0, moves[0].1).value, moves[1..], s')
  }

  ghost predicate SomeoneDumps(threads: set<Tid>, s: State) {
    s.pc.Keys == threads && exists t :: t in threads && s.pc[t].Dumping?
  }

  /** Threads that are neither waiting for the snapshot nor in a native region. */
  ghost function Busy(threads: set<Tid>, pc: map<Tid, Pc>): set<Tid>
    requires pc.Keys == threads
  {
    set t | t in threads && !pc[t].Native? && !pc[t].Parked?
  }

  /** Steps of the thread in its critical section until it gives up the mutex. */
  function Rank(pc: Pc): nat {
    match pc
    case UnTest => 9
    case UnReady => 8
    case SerReady => 6
    case SerCount => 5
    case SerFlag => 4
    case SerTest => 3
    case CpCount => 2
    case CpReady => 1
    case _ => 7
  }

  /** How far the thread that moves next is from giving up the mutex. */
  function HolderRank(threads: set<Tid>, s: State): nat
    requires s.pc.Keys == threads
  {
    if s.lock.Some? && s.lock.value in threads then Rank(s.pc[s.lock.value]) else 7
  }

  /** The thread that is made to move: the holder of the mutex, or one that runs code and asks for a
      snapshot. */
  lemma {:induction false} BusyStep(threads: set<Tid>, s: State, t: Tid)
    requires Inv(threads, s) && t in threads && !SomeoneDumps(threads, s) && t in Busy(threads, s.pc)
    requires s.lock.Some? ==> s.lock == Some(t)
    ensures Next(threads, s, t, true).Some?
    ensures var s' := Next(threads, s, t, true).value;
      && s'.pc.Keys == threads && Busy(threads, s'.pc) <= Busy(threads, s.pc)
      && (s'.pc[t].Dumping?
          || t !in Busy(threads, s'.pc)
          || (Busy(threads, s'.pc) == Busy(threads, s.pc) && HolderRank(threads, s') < HolderRank(threads, s)))
  {
    var s' := Next(threads, s, t, true).value;
    LockStep(threads, s, t, true, s');
    assert s.lock.None? ==> s.pc[t].Wasm?;
  }

  lemma {:induction false} StepThen(threads: set<Tid>, s: State, t: Tid, moves: seq<(Tid, bool)>, s': State)
    requires s.pc.Keys == threads && t in threads && Next(threads, s, t, true).Some?
    requires Leads(threads, Next(threads, s, t, true).value, moves, s')
    ensures Leads(threads, s, [(t, true)] + moves, s')
  {
    assert ([(t, true)] + moves)[1..] == moves;
  }

  /** Every thread that is busy can be brought to wait, or to take the snapshot. */
  lemma {:induction false} Settle(threads: set<Tid>, s: State) returns (moves: seq<(Tid, bool)>, s': State)
    requires Inv(threads, s)
    ensures Leads(threads, s, moves, s') && Inv(threads, s')
    ensures SomeoneDumps(threads, s') || Busy(threads, s'.pc) == {}
    decreases Busy(threads, s.pc), HolderRank(threads, s)
  {
    if SomeoneDumps(threads, s) || Busy(threads, s.pc) == {} {
      moves, s' := [], s;
    } else {
      var t: Tid :| t in Busy(threads, s.pc);
      if s.lock.Some? {
        t := s.lock.value;
      }
      BusyStep(threads, s, t);
      var m := Next(threads, s, t, true).value;
      InvStep(threads, s, t, true, m);
      if m.pc[t].Dumping? {
        moves, s' := [], m;
      } else {
        assert t !in Busy(threads, m.pc) ==> Busy(threads, m.pc) < Busy(threads, s.pc);
        moves, s' := Settle(threads, m);
      }
      StepThen(threads, s, t, moves, s');
      moves := [(t, true)] + moves;
    }
  }

  /** Leaving a native region, or asking for a snapshot. */
  predicate OnItsWay(pc: Pc) { !pc.CpCount? && !pc.CpReady? && !pc.Blocked? && !pc.Parked? }

  /** The last thread that is not waiting: its way to the snapshot. */
  lemma {:induction false} LastThread(threads: set<Tid>, s: State, t: Tid) returns (moves: seq<(Tid, bool)>, s': State)
    requires Inv(threads, s) && t in threads && OnItsWay(s.pc[t]) && OthersWait(threads, s, t)
    ensures Leads(threads, s, moves, s') && SomeoneDumps(threads, s')
    decreases if s.pc[t].Native? then 10 else if s.pc[t].Dumping? then 0 else Rank(s.pc[t])
  {
    if s.pc[t].Dumping? {
      moves, s' := [], s;
    } else {
      var m := LastThreadStep(threads, s, t);
      moves, s' := LastThread(threads, m, t);
      StepThen(threads, s, t, moves, s');
      moves := [(t, true)] + moves;
    }
  }

  ghost predicate OthersWait(threads: set<Tid>, s: State, t: Tid)
    requires s.pc.Keys == threads
  {
    forall u | u in threads && u != t :: s.pc[u].Native? || s.pc[u].Parked?
  }

  /** Its next step, one closer to the snapshot. */
  lemma {:induction false} LastThreadStep(threads: set<Tid>, s: State, t: Tid) returns (m: State)
    requires Inv(threads, s) && t in threads && OnItsWay(s.pc[t]) && !s.pc[t].Dumping? && OthersWait(threads, s, t)
    ensures Next(threads, s, t, true) == Some(m) && Inv(threads, m)
    ensures OnItsWay(m.pc[t]) && OthersWait(threads, m, t)
    ensures m.pc[t].Dumping? || s.pc[t].Native? || Rank(m.pc[t]) < Rank(s.pc[t])
    ensures s.pc[t].Native? ==> m.pc[t].UnTest?
  {
    OwnLock(threads, s, t);
    if s.pc[t].SerTest? {
      SnapshotIffQuiet(threads, s, t, true);
    }
    NextOnItsWay(threads, s, t);
    m := Next(threads, s, t, true).value;
    PcStep(threads, s, t, true, m);
    InvStep(threads, s, t, true, m);
  }

  lemma {:induction false} NextOnItsWay(threads: set<Tid>, s: State, t: Tid)
    requires s.pc.Keys == threads && t in threads && CountOk(s, t) && OnItsWay(s.pc[t]) && !s.pc[t].Dumping?
    requires !s.pc[t].HoldsLock() ==> s.lock == None
    requires s.pc[t].SerTest? ==> s.ready >= |threads|
    ensures Next(threads, s, t, true).Some? && t in Next(threads, s, t, true).value.pc
    ensures var now := Next(threads, s, t, true).value.pc[t];
      && OnItsWay(now) && (s.pc[t].Native? ==> now.UnTest?)
      && (now.Dumping? || s.pc[t].Native? || Rank(now) < Rank(s.pc[t]))
  {
  }

  /** Nobody who waits holds the mutex. */
  lemma {:induction false} OwnLock(threads: set<Tid>, s: State, t: Tid)
    requires LockOk(threads, s) && t in threads && OthersWait(threads, s, t)
    ensures !s.pc[t].HoldsLock() ==> s.lock == None
  {
  }

  /** From every state that a run can reach, the threads can get to a snapshot. */
  lemma {:induction false} SnapshotReachable(threads: set<Tid>, s: State) returns (moves: seq<(Tid, bool)>, s': State)
    requires Inv(threads, s) && threads != {}
    ensures Leads(threads, s, moves, s') && SomeoneDumps(threads, s')
  {
    moves, s' := Settle(threads, s);
    if !SomeoneDumps(threads, s') {
      var m := s';
      var t := NativeThread(threads, m);
      var more;
      more, s' := LastThread(threads, m, t);
      LeadsOn(threads, s, moves, m, more, s');
      moves := moves + more;
    }
  }

  /** The same, said of runs. */
  lemma {:induction false} RunReachesSnapshot(threads: set<Tid>, run: seq<State>, who: seq<Tid>, wants: seq<bool>,
                                              i: nat)
      returns (moves: seq<(Tid, bool)>, s': State)
    requires IsRun(threads, run, who, wants) && i < |run| && threads != {}
    ensures Leads(threads, run[i], moves, s') && SomeoneDumps(threads, s')
  {
    InvRun(threads, run, who, wants, i);
    moves, s' := SnapshotReachable(threads, run[i]);
  }

  /** When nobody is busy, somebody is in a native region. */
  lemma {:induction false} NativeThread(threads: set<Tid>, s: State) returns (t: Tid)
    requires Inv(threads, s) && threads != {} && Busy(threads, s.pc) == {}
    ensures t in threads && s.pc[t].Native? && OthersWait(threads, s, t)
  {
    forall u | u in threads
      ensures s.pc[u].Native? || s.pc[u].Parked?
    {
      assert u !in Busy(threads, s.pc);
    }
    t :| t in threads && !s.pc[t].Parked?;
  }

  lemma {:induction false} LeadsOn(threads: set<Tid>, s: State, moves: seq<(Tid, bool)>, m: State,
                                   more: seq<(Tid, bool)>, s': State)
    requires Leads(threads, s, moves, m) && Leads(threads, m, more, s')
    ensures Leads(threads, s, moves + more, s')
    decreases |moves|
  {
    if moves == [] {
      assert moves + more == more;
    } else {
      var all := moves + more;
      assert all[0] == moves[0] && all[1..] == moves[1..] + more;
      LeadsOn(threads, Next(threads, s, moves[0].0, moves[0].1).value, moves[1..], m, more, s');
    }
  }
}
