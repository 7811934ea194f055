/** The file-descriptor log under the "compression" policy, and its restore. */
module FdLog {
  import opened Basics

  datatype FdOp = Fopen | Fwrite | Fread | Fseek

  datatype Record = Record(flags: int, offset: int, op: FdOp)

  datatype Entry = Entry(path: string, ops: seq<Record>)

  type FdMap = map<int, Entry>

  // ------------------------------------------------------------------ recording

  class Recorder {
    var fdMap: FdMap

    constructor ()
      ensures fdMap == map[]
    {
      fdMap := map[];
    }

    /** A call with a path opens; a call without one moves the position of an open descriptor, and
        replaces what was recorded of the last move. */
    method InsertFd(fd: int, path: string, flags: int, offset: int, op: FdOp)
      requires fd > 2 && path == "" ==> fd in fdMap && fdMap[fd].ops != []
      modifies this
      ensures fd <= 2 ==> fdMap == old(fdMap)
      ensures fd > 2 && path != "" ==> fdMap == Opened(old(fdMap), fd, path, Record(flags, offset, op))
      ensures fd > 2 && path == "" ==> fdMap == Moved(old(fdMap), fd, flags, offset)
    {
      if fd > 2 {
        var entry := if fd in fdMap then fdMap[fd] else Entry("", []);
        var ops := entry.ops;
        if path != "" {
          ops := ops + [Record(flags, offset, op)];
          fdMap := fdMap[fd := Entry(path, ops)];
        } else {
          if |ops| == 1 {
            ops := ops + [Record(flags, offset, Fseek)];
          } else {
            ops := ops[|ops| - 1 := Record(1, offset, Fseek)];
          }
          fdMap := fdMap[fd := Entry(entry.path, ops)];
        }
      }
    }

    method RenameFd(oldFd: int, oldPath: string, newFd: int, newPath: string)
      modifies this
      ensures fdMap == Renumbered(old(fdMap), oldFd, oldPath, newFd, newPath)
    {
      if oldFd in fdMap {
        var entry := fdMap[oldFd];
        if oldPath == "" {
          fdMap := fdMap[newFd := Entry(newPath, entry.ops)];
        } else {
          fdMap := fdMap[newFd := entry];
        }
        fdMap := fdMap - {oldFd};
      }
    }

    method RemoveFd(fd: int)
      modifies this
      ensures fdMap == old(fdMap) - {fd}
    {
      if fd in fdMap {
        fdMap := fdMap - {fd};
      }
    }
  }

  function Opened(m: FdMap, fd: int, path: string, r: Record): FdMap {
    m[fd := Entry(path, (if fd in m then m[fd].ops else []) + [r])]
  }

  function Moved(m: FdMap, fd: int, flags: int, offset: int): FdMap
    requires fd in m && m[fd].ops != []
  {
    var ops := m[fd].ops;
    m[fd := Entry(m[fd].path,
                  if |ops| == 1 then ops + [Record(flags, offset, Fseek)]
                  else ops[|ops| - 1 := Record(1, offset, Fseek)])]
  }

  function Renumbered(m: FdMap, oldFd: int, oldPath: string, newFd: int, newPath: string): FdMap {
    if oldFd !in m then m
    else m[newFd := Entry(if oldPath == "" then newPath else m[oldFd].path, m[oldFd].ops)] - {oldFd}
  }

  // ------------------------------------------------------------------ what a program did to its files

  /** An open descriptor: its path, and the position it was last moved to. */
  datatype File = File(path: string, position: Option<int>)

  type Files = map<int, File>

  datatype Action =
    | Open(fd: int, path: string, flags: int, offset: int)
    | Move(fd: int, flags: int, offset: int, op: FdOp)      // read, write or seek
    | Renumber(fd: int, oldPath: string, newFd: int, newPath: string)
    | Close(fd: int)

  /** Descriptors are closed before reuse, moved only while open, and renumbered to another one. */
  predicate Allowed(files: Files, a: Action) {
    match a
    case Open(fd, path, _, _) => fd > 2 && path != "" && fd !in files
    case Move(fd, _, _, _) => fd > 2 && fd in files
    case Renumber(fd, _, newFd, _) => fd in files && fd != newFd
    case Close(fd) => true
  }

  function Do(files: Files, a: Action): Files
    requires Allowed(files, a)
  {
    match a
    case Open(fd, path, _, _) => files[fd := File(path, None)]
    case Move(fd, _, offset, _) => files[fd := files[fd].(position := Some(offset))]
    case Renumber(fd, oldPath, newFd, newPath) =>
      (files - {fd})[newFd := files[fd].(path := if oldPath == "" then newPath else files[fd].path)]
    case Close(fd) => files - {fd}
  }

  /** What the recorder does for an action. */
  function Log(m: FdMap, a: Action): FdMap
    requires a.Move? ==> a.fd in m && m[a.fd].ops != []
  {
    match a
    case Open(fd, path, flags, offset) => Opened(m, fd, path, Record(flags, offset, Fopen))
    case Move(fd, flags, offset, _) => Moved(m, fd, flags, offset)
    case Renumber(fd, oldPath, newFd, newPath) => Renumbered(m, fd, oldPath, newFd, newPath)
    case Close(fd) => m - {fd}
  }

  /** An entry of at most two records that says where the file is. */
  predicate Says(e: Entry, f: File) {
    && e.path == f.path
    && 1 <= |e.ops| <= 2 && e.ops[0].op == Fopen
    && (|e.ops| == 1 <==> f.position == None)
    && (|e.ops| == 2 ==> e.ops[1].op == Fseek && f.position == Some(e.ops[1].offset))
  }

  ghost predicate Agrees(m: FdMap, files: Files) {
    m.Keys == files.Keys && forall fd | fd in m :: Says(m[fd], files[fd])
  }

  lemma {:induction false} AgreesStep(m: FdMap, files: Files, a: Action)
    requires Agrees(m, files) && Allowed(files, a)
    ensures Agrees(Log(m, a), Do(files, a))
  {
    var m', files' := Log(m, a), Do(files, a);
    assert m'.Keys == files'.Keys;
    forall fd | fd in m'
      ensures Says(m'[fd], files'[fd])
    {
      if fd in m {
        assert Says(m[fd], files[fd]);
      }
      if a.Renumber? {
        assert Says(m[a.fd], files[a.fd]);
      }
    }
  }

  /** The files after a history; None if some action was not allowed. */
  function FilesAfter(actions: seq<Action>): Option<Files> {
    if actions == [] then Some(map[])
    else
      var last := actions[|actions| - 1];
      match FilesAfter(actions[..|actions| - 1])
      case None => None
      case Some(files) => if Allowed(files, last) then Some(Do(files, last)) else None
  }

  lemma {:induction false} PrefixAllowed(actions: seq<Action>, i: nat)
    requires i < |actions| && FilesAfter(actions).Some?
    ensures FilesAfter(actions[..i]).Some? && Allowed(FilesAfter(actions[..i]).value, actions[i])
    ensures FilesAfter(actions[..i + 1]) == Some(Do(FilesAfter(actions[..i]).value, actions[i]))
    decreases |actions|
  {
    assert actions[..i + 1][..i] == actions[..i];
    if i == |actions| - 1 {
      assert actions[..i + 1] == actions;
    } else {
      var init := actions[..|actions| - 1];
      PrefixAllowed(init, i);
      assert init[..i] == actions[..i] && init[..i + 1] == actions[..i + 1];
    }
  }

  /** Recording a history: the log has one or two records for each live descriptor, none for any
      other, and they say its path and its last recorded position. */
  method RecordAll(actions: seq<Action>) returns (recorder: Recorder)
    requires FilesAfter(actions).Some?
    ensures fresh(recorder) && Agrees(recorder.fdMap, FilesAfter(actions).value)
  {
    recorder := new Recorder();
    var i := 0;
    while i < |actions|
      invariant 0 <= i <= |actions| && fresh(recorder)
      invariant FilesAfter(actions[..i]).Some? && Agrees(recorder.fdMap, FilesAfter(actions[..i]).value)
    {
      PrefixAllowed(actions, i);
      AgreesStep(recorder.fdMap, FilesAfter(actions[..i]).value, actions[i]);
      RecordOne(recorder, actions[i], FilesAfter(actions[..i]).value);
      i := i + 1;
    }
    assert actions[..i] == actions;
  }

  method RecordOne(recorder: Recorder, a: Action, ghost files: Files)
    requires Agrees(recorder.fdMap, files) && Allowed(files, a)
    modifies recorder
    ensures a.Move? ==> a.fd in old(recorder.fdMap) && old(recorder.fdMap)[a.fd].ops != []
    ensures recorder.fdMap == Log(old(recorder.fdMap), a)
  {
    match a {
      case Open(fd, path, flags, offset) => recorder.InsertFd(fd, path, flags, offset, Fopen);
      case Move(fd, flags, offset, op) =>
        assert Says(recorder.fdMap[fd], files[fd]);
        recorder.InsertFd(fd, "", flags, offset, op);
      case Renumber(fd, oldPath, newFd, newPath) => recorder.RenameFd(fd, oldPath, newFd, newPath);
      case Close(fd) => recorder.RemoveFd(fd);
    }
  }

  // ------------------------------------------------------------------ restoring

  datatype OpenFile = OpenFile(path: string, offset: int)

  type Table = map<int, OpenFile>

  /** What the recorder leaves: an open, then moves. */
  ghost predicate Restorable(e: Entry) {
    e.ops != [] && e.ops[0].op == Fopen && forall i :: 1 <= i < |e.ops| ==> e.ops[i].op != Fopen
  }

  function Position(ops: seq<Record>): int {
    if |ops| <= 1 then 0 else ops[|ops| - 1].offset
  }

  lemma {:induction false} UnusedExists(used: set<int>) returns (r: int)
    ensures r !in used
  {
    if used == {} {
      r := 0;
    } else {
      var least := LeastElement(used);
      r := least - 1;
    }
  }

  /** Opening yields some unused descriptor, which is then renumbered. */
  method ReopenAs(table: Table, fd: int, path: string) returns (table': Table)
    ensures table' == table[fd := OpenFile(path, 0)]
  {
    ghost var witness' := UnusedExists(table.Keys);
    var r: int :| r !in table.Keys;
    table' := table[r := OpenFile(path, 0)];
    if r != fd {
      table' := table'[fd := table'[r]] - {r};
    }
  }

  /** Restoring one descriptor from its records. */
  method RestoreOne(table: Table, fd: int, e: Entry) returns (table': Table)
    requires Restorable(e)
    ensures table' == table[fd := OpenFile(e.path, Position(e.ops))]
  {
    table' := table;
    var i := 0;
    while i < |e.ops|
      invariant 0 <= i <= |e.ops|
      invariant i == 0 ==> table' == table
      invariant i > 0 ==> table' == table[fd := OpenFile(e.path, Position(e.ops[..i]))]
    {
      if e.ops[i].op == Fopen {
        table' := ReopenAs(table', fd, e.path);
      } else {
        table' := table'[fd := table'[fd].(offset := e.ops[i].offset)];
      }
      assert e.ops[..i + 1][|e.ops[..i + 1]| - 1] == e.ops[i];
      i := i + 1;
    }
    assert e.ops[..i] == e.ops;
  }

  ghost function Restored(m: FdMap): Table {
    map fd | fd in m :: OpenFile(m[fd].path, Position(m[fd].ops))
  }

  /** Restoring all descriptors in ascending order: whatever descriptors the opens hand out, exactly
      the recorded ones come back, and the others are left as they were. */
  method Restore(m: FdMap, table: Table) returns (table': Table, fdMap: FdMap)
    requires forall fd | fd in m :: Restorable(m[fd])
    ensures table' == table + Restored(m)
    ensures fdMap == m
  {
    table', fdMap := table, map[];
    var rest := m.Keys;
    while rest != {}
      invariant rest <= m.Keys && fdMap == m - rest
      invariant table' == table + Restored(fdMap)
      decreases rest
    {
      var fd := Least(rest);
      table' := RestoreOne(table', fd, m[fd]);
      fdMap := fdMap[fd := m[fd]];
      rest := rest - {fd};
    }
    MinusNothing(m);
  }

  lemma {:induction false} AgreedIsRestorable(m: FdMap, files: Files)
    requires Agrees(m, files)
    ensures forall fd | fd in m :: Restorable(m[fd])
    ensures Restored(m) == Live(files)
  {
    forall fd | fd in m
      ensures Restorable(m[fd]) && Restored(m)[fd] == Live(files)[fd]
    {
      assert Says(m[fd], files[fd]);
    }
  }

  /** The descriptors a program holds, as a fresh process would see them; one that was never moved
      is at the front. */
  ghost function Live(files: Files): Table {
    map fd | fd in files :: OpenFile(files[fd].path, if files[fd].position.Some? then files[fd].position.value else 0)
  }

  /** End to end: recording any history and restoring its log in a fresh process gives back exactly
      the descriptors that were live, with their paths and their last recorded positions. */
  method RecordAndRestore(actions: seq<Action>) returns (table: Table)
    requires FilesAfter(actions).Some?
    ensures table == Live(FilesAfter(actions).value)
  {
    var recorder := RecordAll(actions);
    var fdMap;
    AgreedIsRestorable(recorder.fdMap, FilesAfter(actions).value);
    table, fdMap := Restore(recorder.fdMap, map[]);
  }

}
