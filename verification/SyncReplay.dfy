/** Replaying the synchronisation log after a restore.  The main thread renames the thread ids of
    the log, then all threads take turns under one mutex: each performs the entries that carry its
    own id.  A run is any interleaving of these steps. */
module SyncReplay {
  import opened Basics
  import opened SyncLog

  type Tid = nat

  /** Reading the id map creates a missing entry with value zero. */
  function NewTid(tidMap: map<Tid, Tid>, t: Tid): Tid { if t in tidMap then tidMap[t] else 0 }

  function RenamedOp(op: SyncOp, tidMap: map<Tid, Tid>): SyncOp { op.(tid := NewTid(tidMap, op.tid)) }

  function Renamed(log: seq<SyncOp>, tidMap: map<Tid, Tid>): (r: seq<SyncOp>)
    ensures |r| == |log|
    ensures forall i :: 0 <= i < |log| ==> r[i] == RenamedOp(log[i], tidMap)
  {
    seq(|log|, i requires 0 <= i < |log| => RenamedOp(log[i], tidMap))
  }

  /** Start: the main thread renames, the others wait for it.  Check and Op hold the replay mutex. */
  datatype Pc = Start | Want | Check | Op(entry: nat) | Done {
    predicate HoldsLock() { Check? || Op? }
  }

  /** What does not change during a replay. */
  datatype Setup = Setup(team: set<Tid>, main: Tid, tidMap: map<Tid, Tid>, log: seq<SyncOp>) {
    ghost predicate Valid() { main in team }
    function Target(): seq<SyncOp> { Renamed(log, tidMap) }
    /** Performed in order, every entry returns. */
    predicate Returns() { After(Target()).Some? }
  }

  datatype State = State(
    log: seq<SyncOp>, renamed: nat, iter: nat, permits: nat, lock: Option<Tid>,
    pc: map<Tid, Pc>, owners: map<nat, Tid>, performed: seq<(Tid, SyncOp)>)

  function Init(x: Setup): State {
    State(x.log, 0, 0, 0, None, map t | t in x.team :: Start, map[], [])
  }

  /** Performing an operation; None while it blocks.  Waiting operations are taken to return. */
  function Perform(owners: map<nat, Tid>, op: SyncOp): Option<map<nat, Tid>> {
    match op.kind
    case MutexLock => if op.ref in owners then None else Some(owners[op.ref := op.tid])
    case MutexUnlock =>
      if op.ref in owners && owners[op.ref] == op.tid then Some(owners - {op.ref}) else Some(owners)
    case _ => Some(owners)
  }

  const PERMITS := 100

  /** The main thread renames one entry, or publishes the log and lets the others in. */
  function MainStart(x: Setup, s: State): State
    requires s.pc.Keys == x.team && x.Valid()
  {
    if s.renamed < |s.log| then
      s.(log := s.log[s.renamed := RenamedOp(s.log[s.renamed], x.tidMap)],
         renamed := s.renamed + 1)
    else s.(iter := 0, permits := s.permits + PERMITS, pc := s.pc[x.main := Want])
  }

  /** One turn of the replay loop. */
  function Turn(s: State, t: Tid): State {
    if s.iter >= |s.log| then s.(lock := None, pc := s.pc[t := Done])
    else if s.log[s.iter].tid == t then s.(iter := s.iter + 1, pc := s.pc[t := Op(s.iter)])
    else s.(lock := None, pc := s.pc[t := Want])
  }

  function Next(x: Setup, s: State, t: Tid): Option<State>
    requires s.pc.Keys == x.team && t in x.team && x.Valid()
  {
    match s.pc[t]
    case Start =>
      if t == x.main then Some(MainStart(x, s))
      else if s.permits == 0 then None
      else Some(s.(permits := s.permits - 1, pc := s.pc[t := Want]))
    case Want => if s.lock.Some? then None else Some(s.(lock := Some(t), pc := s.pc[t := Check]))
    case Check => Some(Turn(s, t))
    case Op(i) =>
      if i >= |s.log| then None else
      var after := Perform(s.owners, s.log[i]);
      if after.None? then None
      else Some(s.(owners := after.value, performed := s.performed + [(t, s.log[i])], pc := s.pc[t := Check]))
    case Done => None
  }

  // ------------------------------------------------------------------ the invariant

  ghost predicate LockOk(x: Setup, s: State) {
    && s.pc.Keys == x.team && x.Valid()
    && (forall t | t in x.team :: s.pc[t].HoldsLock() <==> s.lock == Some(t))
    && (s.lock.Some? ==> s.lock.value in x.team)
  }

  /** Until the main thread has renamed the whole log nobody else runs. */
  ghost predicate RenameOk(x: Setup, s: State) {
    && s.pc.Keys == x.team && x.Valid()
    && s.renamed <= |s.log| == |x.log|
    && (forall i :: 0 <= i < s.renamed ==> s.log[i] == x.Target()[i])
    && (forall i :: s.renamed <= i < |s.log| ==> s.log[i] == x.log[i])
    && (s.pc[x.main].Start? ==> s.iter == 0 && s.permits == 0 && forall t | t in x.team :: s.pc[t].Start?)
    && (!s.pc[x.main].Start? ==> s.renamed == |s.log|)
  }

  /** The entries that have been performed, each with the thread that did it. */
  ghost function Script(log: seq<SyncOp>): seq<(Tid, SyncOp)> {
    if log == [] then [] else Script(log[..|log| - 1]) + [(log[|log| - 1].tid, log[|log| - 1])]
  }

  /** An entry has been claimed and is not finished. */
  predicate InFlight(s: State) {
    s.lock.Some? && s.lock.value in s.pc && s.pc[s.lock.value].Op?
  }

  function Finished(s: State): int { if InFlight(s) then s.iter - 1 else s.iter }

  ghost predicate ScriptOk(x: Setup, s: State) {
    && s.pc.Keys == x.team
    && s.iter <= |s.log| && 0 <= Finished(s)
    && s.performed == Script(s.log[..Finished(s)])
    && (forall t | t in x.team && s.pc[t].Op? :: s.pc[t].entry == s.iter - 1 < |s.log| && s.log[s.iter - 1].tid == t)
    && (forall t | t in x.team && s.pc[t].Done? :: s.iter == |s.log| && !InFlight(s))
  }

  ghost predicate Inv(x: Setup, s: State) { LockOk(x, s) && RenameOk(x, s) && ScriptOk(x, s) }

  lemma {:induction false} LockStep(x: Setup, s: State, t: Tid, s': State)
    requires LockOk(x, s) && t in x.team && Next(x, s, t) == Some(s')
    ensures LockOk(x, s') && s'.pc == s.pc[t := s'.pc[t]]
  {
  }

  lemma {:induction false} RenameStep(x: Setup, s: State, t: Tid, s': State)
    requires LockOk(x, s) && RenameOk(x, s) && t in x.team && Next(x, s, t) == Some(s')
    ensures RenameOk(x, s')
  {
    LockStep(x, s, t, s');
    if s.pc[x.main].Start? {
      assert s.pc[t].Start?;
    }
  }

  lemma {:induction false} ScriptSnoc(log: seq<SyncOp>, i: nat)
    requires i < |log|
    ensures Script(log[..i + 1]) == Script(log[..i]) + [(log[i].tid, log[i])]
  {
    assert log[..i + 1][..i] == log[..i];
  }

  lemma {:induction false} OtherStartStep(x: Setup, s: State, t: Tid, s': State)
    requires Inv(x, s) && t in x.team && t != x.main && Next(x, s, t) == Some(s') && s.pc[t].Start?
    ensures ScriptOk(x, s')
  {
    LockStep(x, s, t, s');
    assert InFlight(s') == InFlight(s);
  }

  lemma {:induction false} WantStep(x: Setup, s: State, t: Tid, s': State)
    requires Inv(x, s) && t in x.team && Next(x, s, t) == Some(s') && s.pc[t].Want?
    ensures ScriptOk(x, s')
  {
    LockStep(x, s, t, s');
    assert !InFlight(s) && !InFlight(s');
  }

  /** The turn of the thread that the next entry names. */
  lemma {:induction false} ClaimStep(x: Setup, s: State, t: Tid, s': State)
    requires Inv(x, s) && t in x.team && Next(x, s, t) == Some(s') && s.pc[t].Check?
    requires s.iter < |s.log| && s.log[s.iter].tid == t
    ensures ScriptOk(x, s')
  {
    LockStep(x, s, t, s');
    assert InFlight(s') && !InFlight(s);
    assert forall u | u in x.team :: !s.pc[u].Done?;
  }

  lemma {:induction false} PerformStep(x: Setup, s: State, t: Tid, s': State)
    requires Inv(x, s) && t in x.team && Next(x, s, t) == Some(s') && s.pc[t].Op?
    ensures ScriptOk(x, s')
  {
    LockStep(x, s, t, s');
    assert s.lock == Some(t) && InFlight(s) && !InFlight(s');
    ScriptSnoc(s.log, s.iter - 1);
  }

  lemma {:induction false} InvStep(x: Setup, s: State, t: Tid, s': State)
    requires Inv(x, s) && t in x.team && Next(x, s, t) == Some(s')
    ensures Inv(x, s')
  {
    LockStep(x, s, t, s');
    RenameStep(x, s, t, s');
    match s.pc[t] {
      case Start =>
        if t != x.main {
          OtherStartStep(x, s, t, s');
        }
      case Want => WantStep(x, s, t, s');
      case Check =>
        if s.iter < |s.log| && s.log[s.iter].tid == t {
          ClaimStep(x, s, t, s');
        }
      case Op(_) => PerformStep(x, s, t, s');
      case Done =>
    }
  }

  /** In every state of every run, what has been performed is a prefix of the renamed log, each entry
      once and by the thread it names; a thread that has left has seen the whole log performed. */
  lemma {:induction false} PerformedIsPrefix(x: Setup, s: State, t: Tid)
    requires Inv(x, s) && t in x.team
    ensures s.performed != [] || s.pc[t].Done? ==> s.log == x.Target()
    ensures 0 <= Finished(s) <= |x.Target()| && s.performed == Script(x.Target()[..Finished(s)])
    ensures s.pc[t].Done? ==> s.performed == Script(x.Target())
  {
    if s.pc[x.main].Start? {
      assert !s.pc[t].Done? && s.iter == 0;
      assert s.log[..0] == x.Target()[..0];
      assert !InFlight(s);
    } else {
      assert s.log == x.Target();
      assert s.log[..|s.log|] == s.log;
    }
  }

  /** Each entry of the target carries the thread that the map gives for its thread, or zero. */
  lemma {:induction false} TargetIsMapped(x: Setup, i: nat)
    requires i < |x.log|
    ensures |x.Target()| == |x.log|
    ensures x.log[i].tid in x.tidMap ==> x.Target()[i] == x.log[i].(tid := x.tidMap[x.log[i].tid])
    ensures x.log[i].tid !in x.tidMap ==> x.Target()[i] == x.log[i].(tid := 0)
  {
  }

  // ------------------------------------------------------------------ mutex ownership

  /** The mutex is held by the thread that the map gives for its holder (zero, if it gives none), and is
      free if it had no holder. */
  predicate OwnedAs(owners: map<nat, Tid>, ref: nat, m: Mutex, tidMap: map<Tid, Tid>) {
    match m
    case Held(t) => ref in owners && owners[ref] == (if t in tidMap then tidMap[t] else 0)
    case _ => ref !in owners
  }

  function Image(m: Mutex, tidMap: map<Tid, Tid>): Mutex {
    if m.Held? then Held(NewTid(tidMap, m.tid)) else m
  }

  lemma {:induction false} RenamedCopy(log: seq<SyncOp>, copy: seq<SyncOp>, tidMap: map<Tid, Tid>, ref: nat)
    requires MutexAfter(log, ref) != Bad && |copy| == |log|
    requires forall i :: 0 <= i < |log| ==> copy[i] == RenamedOp(log[i], tidMap)
    ensures MutexAfter(copy, ref) == Image(MutexAfter(log, ref), tidMap)
    decreases |log|
  {
    if log == [] {
    } else {
      var last := |log| - 1;
      RenamedCopy(log[..last], copy[..last], tidMap, ref);
    }
  }

  /** Renaming threads renames owners; the map need not be injective. */
  lemma {:induction false} RenamedMutex(log: seq<SyncOp>, tidMap: map<Tid, Tid>, ref: nat)
    requires MutexAfter(log, ref) != Bad
    ensures MutexAfter(Renamed(log, tidMap), ref) == Image(MutexAfter(log, ref), tidMap)
  {
    RenamedCopy(log, Renamed(log, tidMap), tidMap, ref);
  }

  lemma {:induction false} RenamedLegal(x: Setup)
    requires Legal(x.log)
    ensures Legal(x.Target())
  {
    forall ref: nat
      ensures MutexAfter(x.Target(), ref) != Bad
    {
      RenamedMutex(x.log, x.tidMap, ref);
    }
  }

  function OwnerState(owners: map<nat, Tid>, ref: nat): Mutex {
    if ref in owners then Held(owners[ref]) else Free
  }

  /** An entry of a legal log never blocks when its turn comes, and has the effect the log says. */
  lemma {:induction false} PerformsInOrder(log: seq<SyncOp>, i: nat, owners: map<nat, Tid>)
    requires Legal(log) && i < |log|
    requires forall ref: nat :: OwnerState(owners, ref) == MutexAfter(log[..i], ref)
    ensures Perform(owners, log[i]).Some?
    ensures forall ref: nat :: OwnerState(Perform(owners, log[i]).value, ref) == MutexAfter(log[..i + 1], ref)
  {
    LegalPrefix(log, i + 1);
    assert log[..i + 1] == log[..i] + [log[i]];
    MutexAfterSnoc(log[..i], log[i], log[i].ref);
    forall ref: nat
      ensures OwnerState(Perform(owners, log[i]).value, ref) == MutexAfter(log[..i + 1], ref)
    {
      MutexAfterSnoc(log[..i], log[i], ref);
    }
  }

  /** The mutexes after all entries have been performed in order; None where one of them blocks. */
  function After(log: seq<SyncOp>): Option<map<nat, Tid>> {
    if log == [] then Some(map[])
    else
      var before := After(log[..|log| - 1]);
      if before.None? then None else Perform(before.value, log[|log| - 1])
  }

  lemma {:induction false} AfterSnoc(log: seq<SyncOp>, i: nat)
    requires i < |log|
    ensures After(log[..i + 1]) == if After(log[..i]).None? then None else Perform(After(log[..i]).value, log[i])
  {
    assert log[..i + 1][..i] == log[..i];
  }

  /** What can be performed as a whole can be performed up to any place. */
  lemma {:induction false} AfterPrefix(log: seq<SyncOp>, n: nat)
    requires After(log).Some? && n <= |log|
    ensures After(log[..n]).Some?
    decreases |log| - n
  {
    if n == |log| {
      assert log[..n] == log;
    } else {
      AfterPrefix(log, n + 1);
      AfterSnoc(log, n);
    }
  }

  /** Legal logs can be performed, and leave the mutexes as they say. */
  lemma {:induction false} LegalAfter(log: seq<SyncOp>, n: nat)
    requires Legal(log) && n <= |log|
    ensures After(log[..n]).Some?
    ensures forall ref: nat :: OwnerState(After(log[..n]).value, ref) == MutexAfter(log[..n], ref)
  {
    if n == 0 {
    } else {
      LegalAfter(log, n - 1);
      AfterSnoc(log, n - 1);
      PerformsInOrder(log, n - 1, After(log[..n - 1]).value);
    }
  }

  lemma {:induction false} LegalReturns(x: Setup)
    requires Legal(x.log)
    ensures x.Returns()
    ensures forall ref: nat ::
      OwnerState(After(x.Target()).value, ref) == Image(MutexAfter(x.log, ref), x.tidMap)
  {
    var log := x.Target();
    RenamedLegal(x);
    LegalAfter(log, |log|);
    assert log[..|log|] == log;
    forall ref: nat
      ensures MutexAfter(log, ref) == Image(MutexAfter(x.log, ref), x.tidMap)
    {
      RenamedMutex(x.log, x.tidMap, ref);
    }
  }

  /** The mutexes are as the performed entries leave them. */
  ghost predicate OwnersOk(x: Setup, s: State)
    requires 0 <= Finished(s) <= |s.log|
  {
    After(s.log[..Finished(s)]) == Some(s.owners)
  }

  ghost predicate ReplayInv(x: Setup, s: State) {
    Inv(x, s) && OwnersOk(x, s) && PermitsOk(x, s)
  }

  ghost function Entered(x: Setup, pc: map<Tid, Pc>): set<Tid>
    requires pc.Keys == x.team
  {
    set t | t in x.team && t != x.main && !pc[t].Start?
  }

  /** Every thread that came in used up one permit. */
  ghost predicate PermitsOk(x: Setup, s: State)
    requires s.pc.Keys == x.team && x.Valid()
  {
    !s.pc[x.main].Start? ==> s.permits + |Entered(x, s.pc)| == PERMITS
  }

  lemma {:induction false} EnteredGrows(x: Setup, pc: map<Tid, Pc>, t: Tid, now: Pc)
    requires pc.Keys == x.team && t in x.team && t != x.main && pc[t].Start? && !now.Start?
    ensures pc[t := now].Keys == x.team && |Entered(x, pc[t := now])| == |Entered(x, pc)| + 1
  {
    assert pc[t := now].Keys == x.team;
    assert Entered(x, pc[t := now]) == Entered(x, pc) + {t};
  }

  lemma {:induction false} EnteredStays(x: Setup, pc: map<Tid, Pc>, t: Tid, now: Pc)
    requires pc.Keys == x.team && t in x.team && (t == x.main || pc[t].Start? == now.Start?)
    ensures pc[t := now].Keys == x.team && Entered(x, pc[t := now]) == Entered(x, pc)
  {
    assert pc[t := now].Keys == x.team;
  }

  lemma {:induction false} PermitsStep(x: Setup, s: State, t: Tid, s': State)
    requires Inv(x, s) && PermitsOk(x, s) && t in x.team && Next(x, s, t) == Some(s')
    ensures s'.pc.Keys == x.team && PermitsOk(x, s')
  {
    LockStep(x, s, t, s');
    if s.pc[t].Start? && t != x.main {
      EnteredGrows(x, s.pc, t, s'.pc[t]);
    } else {
      EnteredStays(x, s.pc, t, s'.pc[t]);
      assert s.pc[x.main].Start? ==> Entered(x, s.pc) == {};
    }
  }

  /** Once anything has been claimed, the log is the renamed one. */
  lemma {:induction false} ClaimedFromTarget(x: Setup, s: State, t: Tid)
    requires ReplayInv(x, s) && t in x.team && s.pc[t].Op?
    ensures s.log == x.Target() && s.lock == Some(t) && !s.pc[x.main].Start?
    ensures 0 < s.iter <= |s.log| && s.pc[t].entry == s.iter - 1
    ensures After(s.log[..s.iter - 1]) == Some(s.owners)
    ensures After(s.log[..s.iter]) == Perform(s.owners, s.log[s.iter - 1])
  {
    assert s.lock == Some(t) && !s.pc[x.main].Start?;
    assert s.log == x.Target();
    AfterSnoc(s.log, s.iter - 1);
  }

  lemma {:induction false} OwnersPerform(x: Setup, s: State, t: Tid, s': State)
    requires ReplayInv(x, s) && Inv(x, s') && t in x.team && Next(x, s, t) == Some(s') && s.pc[t].Op?
    ensures OwnersOk(x, s')
  {
    ClaimedFromTarget(x, s, t);
    assert !InFlight(s');
  }

  /** A step that performs nothing leaves the count of what has been performed alone. */
  lemma {:induction false} ClaimEffect(x: Setup, s: State, t: Tid, s': State)
    requires LockOk(x, s) && RenameOk(x, s) && t in x.team && Next(x, s, t) == Some(s')
    requires !s.pc[x.main].Start? && !s.pc[t].Op?
    ensures s'.owners == s.owners && s'.log == s.log && Finished(s') == Finished(s)
  {
    LockStep(x, s, t, s');
  }

  lemma {:induction false} OwnersClaim(x: Setup, s: State, t: Tid, s': State)
    requires Inv(x, s) && Inv(x, s') && OwnersOk(x, s) && t in x.team && Next(x, s, t) == Some(s')
    requires !s.pc[x.main].Start? && !s.pc[t].Op?
    ensures OwnersOk(x, s')
  {
    ClaimEffect(x, s, t, s');
  }

  lemma {:induction false} OwnersStep(x: Setup, s: State, t: Tid, s': State)
    requires ReplayInv(x, s) && Inv(x, s') && t in x.team && Next(x, s, t) == Some(s')
    ensures OwnersOk(x, s')
  {
    if s.pc[t].Op? {
      OwnersPerform(x, s, t, s');
    } else if s.pc[x.main].Start? {
    } else {
      OwnersClaim(x, s, t, s');
    }
  }

  lemma {:induction false} ReplayInvStep(x: Setup, s: State, t: Tid, s': State)
    requires ReplayInv(x, s) && t in x.team && Next(x, s, t) == Some(s')
    ensures ReplayInv(x, s')
  {
    InvStep(x, s, t, s');
    OwnersStep(x, s, t, s');
    PermitsStep(x, s, t, s');
  }

  /** If the entries return when performed in order, then a claimed entry can always be performed: the
      replay never asks for a lock that is held. */
  lemma {:induction false} NeverBlocks(x: Setup, s: State, t: Tid)
    requires ReplayInv(x, s) && x.Returns() && t in x.team && s.pc[t].Op?
    ensures Next(x, s, t).Some?
  {
    ClaimedFromTarget(x, s, t);
    AfterPrefix(s.log, s.iter);
  }

  /** When a thread has left, the mutexes are as the whole renamed log leaves them. */
  lemma {:induction false} DoneOwners(x: Setup, s: State, t: Tid)
    requires ReplayInv(x, s) && t in x.team && s.pc[t].Done?
    ensures After(x.Target()) == Some(s.owners)
  {
    assert !s.pc[x.main].Start?;
    assert s.log == x.Target() && s.log[..|s.log|] == s.log;
  }

  /** After a legal log, every mutex is held by the image of the thread that held it according to the
      log. */
  lemma {:induction false} FinalOwners(x: Setup, s: State, t: Tid, ref: nat)
    requires ReplayInv(x, s) && Legal(x.log) && t in x.team && s.pc[t].Done?
    ensures OwnerState(s.owners, ref) == Image(MutexAfter(x.log, ref), x.tidMap)
    ensures OwnedAs(s.owners, ref, MutexAfter(x.log, ref), x.tidMap)
  {
    DoneOwners(x, s, t);
    LegalReturns(x);
  }

  /** Thread `t` has claimed an entry that blocks. */
  ghost predicate Stuck(x: Setup, s: State, t: Tid) {
    && Inv(x, s) && t in x.team && s.pc[t].Op? && s.lock == Some(t)
    && s.pc[t].entry < |s.log| && Perform(s.owners, s.log[s.pc[t].entry]) == None
  }

  ghost predicate SomeoneStuck(x: Setup, s: State) { exists t :: t in x.team && Stuck(x, s, t) }

  lemma {:induction false} NobodyStuck(x: Setup, s: State)
    requires ReplayInv(x, s) && x.Returns()
    ensures !SomeoneStuck(x, s)
  {
    forall t | t in x.team && s.pc[t].Op?
      ensures Next(x, s, t).Some?
    {
      NeverBlocks(x, s, t);
    }
  }

  // ------------------------------------------------------------------ getting to the end

  ghost predicate AllDone(x: Setup, s: State)
    requires s.pc.Keys == x.team
  {
    forall t | t in x.team :: s.pc[t].Done?
  }

  /** The schedule leads from `s` to `s'`. */
  ghost predicate Leads(x: Setup, s: State, schedule: seq<Tid>, s': State)
    decreases |schedule|
  {
    if schedule == [] then s == s'
    else
      && s.pc.Keys == x.team && x.Valid() && schedule[0] in x.team
      && Next(x, s, schedule[0]).Some?
      && Leads(x, Next(x, s, schedule[0]).value, schedule[1..], s')
  }

  function ToRename(x: Setup, s: State): nat {
    if x.main in s.pc && s.pc[x.main].Start? && s.renamed <= |s.log| then 1 + |s.log| - s.renamed else 0
  }

  function ToClaim(s: State): nat { if s.iter <= |s.log| then |s.log| - s.iter else 0 }

  /** The replay mutex is held by a thread whose turn it is not. */
  predicate Stranger(s: State) {
    && s.lock.Some? && s.lock.value in s.pc && s.pc[s.lock.value].Check?
    && s.iter < |s.log| && s.log[s.iter].tid != s.lock.value
  }

  function In(x: Setup, s: State, kind: Pc): set<Tid>
    requires s.pc.Keys == x.team
  {
    set t | t in x.team && s.pc[t] == kind
  }

  function NotDone(x: Setup, s: State): set<Tid>
    requires s.pc.Keys == x.team
  {
    set t | t in x.team && s.pc[t] != Done
  }

  /** `s'` is closer to the end of the replay. */
  ghost predicate Closer(x: Setup, s': State, s: State)
    requires s.pc.Keys == x.team && s'.pc.Keys == x.team
  {
    || ToRename(x, s') < ToRename(x, s)
    || (ToRename(x, s') == ToRename(x, s) &&
        (|| ToClaim(s') < ToClaim(s)
         || (ToClaim(s') == ToClaim(s) &&
             (|| (InFlight(s) && !InFlight(s'))
              || (InFlight(s) == InFlight(s') &&
                  (|| (Stranger(s) && !Stranger(s'))
                   || (Stranger(s) == Stranger(s') && FewerLeft(x, s', s))))))))
  }

  ghost predicate FewerLeft(x: Setup, s': State, s: State)
    requires s.pc.Keys == x.team && s'.pc.Keys == x.team
  {
    || NotDone(x, s') < NotDone(x, s)
    || (NotDone(x, s') == NotDone(x, s) &&
        (|| In(x, s', Start) < In(x, s, Start)
         || (In(x, s', Start) == In(x, s, Start) && In(x, s', Want) < In(x, s, Want))))
  }

  /** Every entry names a thread that takes part, and there are permits for all. */
  ghost predicate Staffed(x: Setup) {
    && x.Valid() && |x.team| <= PERMITS + 1
    && forall i :: 0 <= i < |x.Target()| ==> x.Target()[i].tid in x.team
  }

  lemma {:induction false} PermitLeft(x: Setup, s: State, t: Tid)
    requires ReplayInv(x, s) && Staffed(x) && !s.pc[x.main].Start? && t in x.team && s.pc[t].Start?
    ensures s.permits > 0
  {
    FewEntered(x.team, x.main, t, Entered(x, s.pc));
  }

  lemma {:induction false} FewEntered<T>(team: set<T>, main: T, t: T, entered: set<T>)
    requires main in team && t in team && main != t && entered <= team && main !in entered && t !in entered
    ensures |entered| + 2 <= |team|
  {
    var others := team - {main} - {t} - entered;
    assert team == others + {main} + {t} + entered;
  }

  /** The thread that holds the replay mutex gets on. */
  lemma {:induction false} HolderMoves(x: Setup, s: State, t: Tid)
    requires ReplayInv(x, s) && !s.pc[x.main].Start? && s.lock == Some(t) && !Stuck(x, s, t)
    ensures t in x.team && Next(x, s, t).Some? && Next(x, s, t).value.pc.Keys == x.team
    ensures Closer(x, Next(x, s, t).value, s)
  {
    assert s.pc[t].HoldsLock();
    var s' := Next(x, s, t).value;
    LockStep(x, s, t, s');
    if s'.pc[t].Done? {
      assert t in NotDone(x, s) && t !in NotDone(x, s');
      assert NotDone(x, s') < NotDone(x, s);
    }
  }

  /** A thread that comes in. */
  lemma {:induction false} StarterMoves(x: Setup, s: State, t: Tid)
    requires ReplayInv(x, s) && Staffed(x) && !s.pc[x.main].Start? && s.lock == None && t in x.team && s.pc[t].Start?
    ensures Next(x, s, t).Some? && Next(x, s, t).value.pc.Keys == x.team
    ensures Closer(x, Next(x, s, t).value, s)
  {
    PermitLeft(x, s, t);
    var s' := Next(x, s, t).value;
    LockStep(x, s, t, s');
    LeavesKind(x, s, s', t, Start);
    assert NotDone(x, s') == NotDone(x, s);
  }

  /** A thread that takes the free mutex. */
  lemma {:induction false} WaiterMoves(x: Setup, s: State, t: Tid)
    requires ReplayInv(x, s) && !s.pc[x.main].Start? && s.lock == None && t in x.team && s.pc[t].Want?
    requires s.iter < |s.log| ==> s.log[s.iter].tid == t
    ensures Next(x, s, t).Some? && Next(x, s, t).value.pc.Keys == x.team
    ensures Closer(x, Next(x, s, t).value, s)
  {
    var s' := Next(x, s, t).value;
    LockStep(x, s, t, s');
    LeavesKind(x, s, s', t, Want);
    assert NotDone(x, s') == NotDone(x, s);
    assert In(x, s', Start) == In(x, s, Start);
  }

  lemma {:induction false} LeavesKind(x: Setup, s: State, s': State, t: Tid, kind: Pc)
    requires s.pc.Keys == x.team && s'.pc.Keys == x.team && t in x.team
    requires s'.pc == s.pc[t := s'.pc[t]] && s.pc[t] == kind != s'.pc[t]
    ensures In(x, s', kind) < In(x, s, kind)
  {
    assert t in In(x, s, kind) && t !in In(x, s', kind);
  }

  /** With the mutex free, a thread that has not got it yet comes closer to it. */
  lemma {:induction false} NewcomerMoves(x: Setup, s: State, t: Tid)
    requires ReplayInv(x, s) && Staffed(x) && !s.pc[x.main].Start? && s.lock == None && t in x.team
    requires !s.pc[t].Done? && (s.iter < |s.log| ==> s.log[s.iter].tid == t)
    ensures Next(x, s, t).Some? && Next(x, s, t).value.pc.Keys == x.team
    ensures Closer(x, Next(x, s, t).value, s)
  {
    assert !s.pc[t].HoldsLock();
    if s.pc[t].Start? {
      StarterMoves(x, s, t);
    } else {
      WaiterMoves(x, s, t);
    }
  }

  /** Until all threads are done, some thread can come closer to the end, unless one is stuck. */
  lemma {:induction false} SomeoneMoves(x: Setup, s: State) returns (t: Tid)
    requires ReplayInv(x, s) && Staffed(x) && !AllDone(x, s) && !SomeoneStuck(x, s)
    ensures t in x.team && Next(x, s, t).Some? && Next(x, s, t).value.pc.Keys == x.team
    ensures Closer(x, Next(x, s, t).value, s)
  {
    if s.pc[x.main].Start? {
      t := x.main;
    } else if s.lock.Some? {
      t := s.lock.value;
      HolderMoves(x, s, t);
    } else {
      assert s.log == x.Target();
      if s.iter < |s.log| {
        t := s.log[s.iter].tid;
      } else {
        t :| t in x.team && !s.pc[t].Done?;
      }
      NewcomerMoves(x, s, t);
    }
  }

  /** From every state of every replay there is a schedule that finishes it, or gets a thread stuck. */
  lemma {:induction false} EndsOrSticks(x: Setup, s: State) returns (schedule: seq<Tid>, s': State)
    requires ReplayInv(x, s) && Staffed(x)
    ensures Leads(x, s, schedule, s') && ReplayInv(x, s') && (AllDone(x, s') || SomeoneStuck(x, s'))
    decreases ToRename(x, s), ToClaim(s), InFlight(s), Stranger(s), NotDone(x, s), In(x, s, Start), In(x, s, Want)
  {
    if AllDone(x, s) || SomeoneStuck(x, s) {
      schedule, s' := [], s;
    } else {
      var t := SomeoneMoves(x, s);
      var m := Next(x, s, t).value;
      ReplayInvStep(x, s, t, m);
      var rest;
      rest, s' := EndsOrSticks(x, m);
      schedule := [t] + rest;
      assert schedule[1..] == rest;
    }
  }

  /** If the entries return when performed in order, then from every state of every replay there is a
      schedule that finishes it: the threads cannot manoeuvre themselves into a deadlock. */
  lemma {:induction false} CanFinish(x: Setup, s: State) returns (schedule: seq<Tid>, s': State)
    requires ReplayInv(x, s) && Staffed(x) && x.Returns()
    ensures Leads(x, s, schedule, s') && ReplayInv(x, s') && AllDone(x, s')
  {
    schedule, s' := EndsOrSticks(x, s);
    NobodyStuck(x, s');
  }

  /** Every run of a replay satisfies the invariant. */
  lemma {:induction false} ReachableOk(x: Setup, schedule: seq<Tid>, s: State, s': State)
    requires ReplayInv(x, s) && Leads(x, s, schedule, s')
    ensures ReplayInv(x, s')
    decreases |schedule|
  {
    if schedule == [] {
    } else {
      ReplayInvStep(x, s, schedule[0], Next(x, s, schedule[0]).value);
      ReachableOk(x, schedule[1..], Next(x, s, schedule[0]).value, s');
    }
  }

  /** For every run of every replay: what has been performed is a prefix of the renamed log, each entry
      once and by the thread it names, and a thread leaves only when all of it has been performed. */
  lemma {:induction false} RunPerformsPrefix(x: Setup, schedule: seq<Tid>, s: State, t: Tid)
    requires x.Valid() && Leads(x, Init(x), schedule, s) && t in x.team
    ensures |s.performed| <= |x.Target()|
    ensures forall i :: 0 <= i < |s.performed| ==> s.performed[i] == (x.Target()[i].tid, x.Target()[i])
    ensures t in s.pc && s.pc[t].Done? ==> |s.performed| == |x.Target()|
  {
    ReachableOk(x, schedule, Init(x), s);
    PerformedIsPrefix(x, s, t);
    ScriptIs(x.Target()[..Finished(s)]);
  }

  lemma {:induction false} ScriptIs(log: seq<SyncOp>)
    ensures |Script(log)| == |log| && forall i :: 0 <= i < |log| ==> Script(log)[i] == (log[i].tid, log[i])
  {
    if log == [] {
    } else {
      ScriptIs(log[..|log| - 1]);
    }
  }

  /** The start of a replay satisfies the invariant, whatever the log is. */
  lemma {:induction false} InitOk(x: Setup)
    requires x.Valid()
    ensures ReplayInv(x, Init(x))
  {
  }

  // ------------------------------------------------------------------ when an entry does not return

  /** If some entry blocks, no thread ever leaves the replay. */
  lemma {:induction false} NobodyLeaves(x: Setup, s: State, t: Tid)
    requires ReplayInv(x, s) && !x.Returns() && t in x.team
    ensures !s.pc[t].Done?
  {
    if s.pc[t].Done? {
      DoneOwners(x, s, t);
    }
  }

  /** It keeps the replay mutex, whatever the others do, and nothing is performed any more. */
  lemma {:induction false} StuckForever(x: Setup, s: State, t: Tid, schedule: seq<Tid>, s': State)
    requires Stuck(x, s, t) && Leads(x, s, schedule, s')
    ensures Stuck(x, s', t) && s'.pc[t] == s.pc[t] && s'.performed == s.performed
    decreases |schedule|
  {
    if schedule == [] {
    } else {
      var m := Next(x, s, schedule[0]).value;
      StuckStep(x, s, t, schedule[0], m);
      StuckForever(x, m, t, schedule[1..], s');
    }
  }

  lemma {:induction false} StuckStep(x: Setup, s: State, t: Tid, u: Tid, s': State)
    requires Stuck(x, s, t) && u in x.team && Next(x, s, u) == Some(s')
    ensures Stuck(x, s', t) && s'.pc[t] == s.pc[t] && s'.performed == s.performed
  {
    InvStep(x, s, u, s');
    LockStep(x, s, u, s');
    assert u != t && !s.pc[u].HoldsLock();
  }

  /** Whoever claims an entry that blocks is stuck. */
  lemma {:induction false} ClaimIsStuck(x: Setup, s: State, t: Tid)
    requires ReplayInv(x, s) && t in x.team && s.pc[t].Op?
    ensures s.iter <= |x.Target()| && (Stuck(x, s, t) <==> After(x.Target()[..s.iter]) == None)
  {
    ClaimedFromTarget(x, s, t);
  }

  /** The schedule leads to the end of the replay. */
  ghost predicate Ends(x: Setup, s: State, schedule: seq<Tid>, s': State) {
    Leads(x, s, schedule, s') && s'.pc.Keys == x.team && AllDone(x, s')
  }

  ghost predicate Sticks(x: Setup, s: State, schedule: seq<Tid>, s': State) {
    Leads(x, s, schedule, s') && SomeoneStuck(x, s')
  }

  lemma {:induction false} NotBoth(x: Setup, s: State, schedule: seq<Tid>, s': State)
    requires ReplayInv(x, s)
    ensures Ends(x, s, schedule, s') ==> x.Returns()
    ensures Sticks(x, s, schedule, s') ==> !x.Returns()
  {
    if Leads(x, s, schedule, s') {
      ReachableOk(x, schedule, s, s');
      if x.Returns() {
        NobodyStuck(x, s');
      } else {
        NobodyLeaves(x, s', x.main);
      }
    }
  }

  /** Whatever has happened so far, the replay can still end exactly when its entries return when
      performed in order; otherwise a thread can still get stuck. */
  lemma {:induction false} EndsIffReturns(x: Setup, s: State)
    requires ReplayInv(x, s) && Staffed(x)
    ensures x.Returns() <==> exists schedule, s' :: Ends(x, s, schedule, s')
    ensures !x.Returns() <==> exists schedule, s' :: Sticks(x, s, schedule, s')
  {
    var schedule, s' := EndsOrSticks(x, s);
    assert Ends(x, s, schedule, s') || Sticks(x, s, schedule, s');
    forall sch, e
      ensures Ends(x, s, sch, e) ==> x.Returns()
      ensures Sticks(x, s, sch, e) ==> !x.Returns()
    {
      NotBoth(x, s, sch, e);
    }
  }

  // ------------------------------------------------------------------ when a replay can end at all

  /** What has been claimed was claimed by the threads that take part. */
  ghost predicate ClaimedByTeam(x: Setup, s: State) {
    s.iter <= |s.log| && forall i :: 0 <= i < s.iter ==> s.log[i].tid in x.team
  }

  lemma {:induction false} ClaimedStep(x: Setup, s: State, t: Tid, s': State)
    requires Inv(x, s) && ClaimedByTeam(x, s) && t in x.team && Next(x, s, t) == Some(s')
    ensures ClaimedByTeam(x, s')
  {
    if s.pc[x.main].Start? {
      assert s.pc[t].Start?;
    }
  }

  lemma {:induction false} ClaimedRun(x: Setup, schedule: seq<Tid>, s: State, s': State)
    requires ReplayInv(x, s) && ClaimedByTeam(x, s) && Leads(x, s, schedule, s')
    ensures ClaimedByTeam(x, s')
    decreases |schedule|
  {
    if schedule == [] {
    } else {
      var m := Next(x, s, schedule[0]).value;
      ClaimedStep(x, s, schedule[0], m);
      ReplayInvStep(x, s, schedule[0], m);
      ClaimedRun(x, schedule[1..], m, s');
    }
  }

  ghost predicate CanEnd(x: Setup) {
    exists schedule, s :: Ends(x, Init(x), schedule, s)
  }

  /** When all have left, all but the main thread have come in on a permit. */
  lemma {:induction false} AllCameIn(x: Setup, s: State)
    requires ReplayInv(x, s) && AllDone(x, s)
    ensures |x.team| <= 101
  {
    assert Entered(x, s.pc) == x.team - {x.main};
  }

  /** A replay can end exactly if its entries return when performed in order, every entry names a thread
      that takes part, and at most 101 threads do: the main one and those that its permits let in. */
  lemma {:induction false} CanEndExact(x: Setup)
    requires x.Valid()
    ensures CanEnd(x) <==>
      x.Returns() && |x.team| <= 101 && forall i :: 0 <= i < |x.Target()| ==> x.Target()[i].tid in x.team
  {
    InitOk(x);
    if CanEnd(x) {
      var schedule, s :| Ends(x, Init(x), schedule, s);
      ReachableOk(x, schedule, Init(x), s);
      ClaimedRun(x, schedule, Init(x), s);
      NotBoth(x, Init(x), schedule, s);
      AllCameIn(x, s);
      assert s.pc[x.main].Done? && s.log == x.Target();
    }
    if x.Returns() && Staffed(x) {
      EndsIffReturns(x, Init(x));
    }
  }
}
