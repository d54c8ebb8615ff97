// One shared state file, its lock file and its temp file, under any number of concurrent callers.
//
// Callers lock, read, write a temp file and rename it over the shared one; readers take no lock.
// Names and contents are kept apart as the file system does: a path points at an inode, an open
// file keeps its inode, and a write that is not finished leaves partial content in its inode.
module SharedFile {
  import opened Basics

  // ---------------------------------------------------------------- documents and operations

  type Item = string

  // A registry row: its id, the field that callers update, and everything else.
  datatype Row = Row(id: string, field: string, rest: string)

  // What a file holds, as a JSON reader sees it.  `Scalar` is any other JSON value, `Blank` is an
  // empty file, and `Garbage` is anything that does not parse.
  datatype Doc = List(items: seq<Item>) | Registry(rows: seq<Row>) | Scalar | Blank | Garbage

  datatype Op =
    | WriteState(doc: Doc)
    | Append(item: Item)
    | Register(row: Row)
    | UpdateStatus(id: string, status: string)

  // Position of the first row with this id, or the number of rows.
  function IndexOf(rows: seq<Row>, id: string): (k: nat)
    ensures k <= |rows|
    ensures k < |rows| ==> rows[k].id == id
    ensures forall j :: 0 <= j < k ==> rows[j].id != id
  {
    if rows == [] || rows[0].id == id then 0 else 1 + IndexOf(rows[1..], id)
  }

  function SetField(rows: seq<Row>, id: string, value: string): seq<Row> {
    var k := IndexOf(rows, id);
    if k < |rows| then rows[k := rows[k].(field := value)] else rows
  }

  function Upsert(rows: seq<Row>, row: Row): seq<Row> {
    if IndexOf(rows, row.id) < |rows| then SetField(rows, row.id, row.field) else rows + [row]
  }

  // The document a call writes over the one it read, or None when it gives up without writing.
  function Effect(op: Op, file: Option<Doc>): Option<Doc> {
    match op
    case WriteState(doc) => Some(doc)
    case Append(item) => (
      match file
      case None => Some(List([item]))
      case Some(List(items)) => Some(List(items + [item]))
      case Some(Registry(_)) => Some(List([item]))
      case Some(Scalar) => Some(List([item]))
      case Some(Blank) => None
      case Some(Garbage) => None)
    case Register(row) => (
      match file
      case None => Some(Registry([row]))
      case Some(Blank) => Some(Registry([row]))
      case Some(Registry(rows)) => Some(Registry(Upsert(rows, row)))
      case Some(List(_)) => None
      case Some(Scalar) => None
      case Some(Garbage) => None)
    case UpdateStatus(id, status) =>
      if file.Some? && file.value.Registry? && IndexOf(file.value.rows, id) < |file.value.rows|
      then Some(Registry(SetField(file.value.rows, id, status)))
      else None
  }

  // Row k is the first one with this id.
  ghost predicate FirstWith(rows: seq<Row>, id: string, k: nat) {
    k < |rows| && rows[k].id == id && forall j :: 0 <= j < k ==> rows[j].id != id
  }

  // `after` is `rows` with a new value in one field of row k, and nothing else changed.
  ghost predicate OnlyFieldSet(rows: seq<Row>, after: seq<Row>, k: nat, value: string)
    requires k < |rows|
  {
    && |after| == |rows| && (forall i :: 0 <= i < |rows| && i != k ==> after[i] == rows[i])
    && after[k].field == value && after[k].id == rows[k].id && after[k].rest == rows[k].rest
  }

  // The loop that registers an agent: update the first row with its id, or add one.
  method RegisterRow(rows: seq<Row>, row: Row) returns (r: seq<Row>)
    ensures r == Upsert(rows, row)
    ensures forall k :: FirstWith(rows, row.id, k) ==> OnlyFieldSet(rows, r, k, row.field)
    ensures (forall k :: 0 <= k < |rows| ==> rows[k].id != row.id) ==> r == rows + [row]
  {
    r := rows;
    var found := false;
    var i := 0;
    while i < |rows| && !found
      invariant 0 <= i <= |rows|
      invariant !found ==> r == rows && i <= IndexOf(rows, row.id)
      invariant found ==> FirstWith(rows, row.id, i) && OnlyFieldSet(rows, r, i, row.field) && r == SetField(rows, row.id, row.field)
      decreases |rows| - i, !found
    {
      if rows[i].id == row.id {
        r := rows[i := rows[i].(field := row.field)];
        found := true;
      } else {
        i := i + 1;
      }
    }
    if !found {
      r := rows + [row];
    }
  }

  // The loop that updates the status of a node: the first row with its id, or none.
  method UpdateRow(rows: seq<Row>, id: string, status: string) returns (found: bool, r: seq<Row>)
    ensures r == SetField(rows, id, status)
    ensures found <==> exists k :: 0 <= k < |rows| && rows[k].id == id
    ensures forall k :: FirstWith(rows, id, k) ==> OnlyFieldSet(rows, r, k, status)
    ensures !found ==> r == rows
  {
    found, r := false, rows;
    for i := 0 to |rows|
      invariant !found && r == rows && i <= IndexOf(rows, id)
    {
      if rows[i].id == id {
        return true, rows[i := rows[i].(field := status)];
      }
    }
  }

  // What a call makes of the file it read. An append keeps a list and replaces anything else that
  // can be read; what cannot be read is left alone.
  lemma EffectMeaning(op: Op, file: Option<Doc>)
    ensures op.WriteState? ==> Effect(op, file) == Some(op.doc)
    ensures op.Append? && file.Some? && file.value.List? ==> Effect(op, file) == Some(List(file.value.items + [op.item]))
    ensures op.Append? && (file.None? || file.value.Registry? || file.value.Scalar?) ==> Effect(op, file) == Some(List([op.item]))
    ensures op.Append? && file.Some? && (file.value.Blank? || file.value.Garbage?) ==> Effect(op, file) == None
    ensures op.Register? && (file.None? || file.value.Blank?) ==> Effect(op, file) == Some(Registry([op.row]))
    ensures op.Register? && file.Some? && file.value.Registry? ==> Effect(op, file).Some? && Effect(op, file).value.Registry?
    ensures op.Register? && file.Some? && (file.value.List? || file.value.Scalar? || file.value.Garbage?) ==> Effect(op, file) == None
    ensures op.UpdateStatus? ==>
              (Effect(op, file).Some? <==> file.Some? && file.value.Registry? && exists k :: 0 <= k < |file.value.rows| && file.value.rows[k].id == op.id)
  {
  }

  // ---------------------------------------------------------------- the transition system

  type Inode = nat
  type CallId = nat
  type ReaderId = nat

  datatype Content = Partial | Whole(doc: Doc)

  // Where a call is: `fd` is the inode of the temp file it opened.
  datatype Phase =
    | Waiting
    | Locked
    | HasRead(seen: Option<Doc>)
    | Writing(next: Doc, fd: Inode)
    | Written(next: Doc)
    | Committed
    | Done
    | Failed

  datatype Call = Call(op: Op, phase: Phase)

  // A reader remembers how many commits there were when it opened the file.
  datatype Reader = Opened(fd: Inode, version: nat) | Finished(doc: Option<Doc>, version: nat)

  datatype Commit = Commit(id: CallId, op: Op)

  datatype State = State(
    path: Option<Inode>, temp: Option<Inode>, disk: map<Inode, Content>, lock: Option<CallId>,
    calls: map<CallId, Call>, readers: map<ReaderId, Reader>, log: seq<Commit>)

  // Unfinished content does not parse.
  function View(c: Content): Doc {
    if c.Partial? then Garbage else c.doc
  }

  // What the shared path shows right now.
  function Shown(s: State): Option<Doc> {
    if s.path.Some? && s.path.value in s.disk then Some(View(s.disk[s.path.value])) else None
  }

  function InPhase(s: State, id: CallId, phase: Phase): State
    requires id in s.calls
  {
    s.(calls := s.calls[id := s.calls[id].(phase := phase)])
  }

  predicate Holding(p: Phase) {
    p.Locked? || p.HasRead? || p.Writing? || p.Written? || p.Committed?
  }

  ghost predicate At(s: State, id: CallId, p: Phase) {
    id in s.calls && s.calls[id].phase == p
  }

  ghost predicate Start(s: State, t: State, id: CallId, op: Op) {
    id !in s.calls && t == s.(calls := s.calls[id := Call(op, Waiting)])
  }

  ghost predicate Acquire(s: State, t: State, id: CallId) {
    At(s, id, Waiting) && s.lock == None && t == InPhase(s, id, Locked).(lock := Some(id))
  }

  ghost predicate Read(s: State, t: State, id: CallId) {
    At(s, id, Locked) && t == InPhase(s, id, HasRead(Shown(s)))
  }

  // Opening the temp path for writing truncates the inode behind it, or makes a new one.
  ghost predicate OpenTemp(s: State, t: State, id: CallId, fd: Inode) {
    && id in s.calls && s.calls[id].phase.HasRead?
    && Effect(s.calls[id].op, s.calls[id].phase.seen).Some?
    && (if s.temp.Some? then fd == s.temp.value else fd !in s.disk)
    && t == InPhase(s, id, Writing(Effect(s.calls[id].op, s.calls[id].phase.seen).value, fd))
            .(temp := Some(fd), disk := s.disk[fd := Partial])
  }

  ghost predicate FinishTemp(s: State, t: State, id: CallId) {
    && id in s.calls && s.calls[id].phase.Writing?
    && t == InPhase(s, id, Written(s.calls[id].phase.next))
            .(disk := s.disk[s.calls[id].phase.fd := Whole(s.calls[id].phase.next)])
  }

  ghost predicate Rename(s: State, t: State, id: CallId) {
    && id in s.calls && s.calls[id].phase.Written? && s.temp.Some?
    && t == InPhase(s, id, Committed)
            .(path := s.temp, temp := None, log := s.log + [Commit(id, s.calls[id].op)])
  }

  ghost predicate Release(s: State, t: State, id: CallId) {
    At(s, id, Committed) && t == InPhase(s, id, Done).(lock := None)
  }

  // An error, a refused operation or the death of the process, at any point before the rename.
  // The lock goes with it; a temp file may be left behind.
  ghost predicate Abort(s: State, t: State, id: CallId) {
    && id in s.calls && (s.calls[id].phase.Waiting? || (Holding(s.calls[id].phase) && !s.calls[id].phase.Committed?))
    && t == InPhase(s, id, Failed).(lock := if s.calls[id].phase.Waiting? then s.lock else None)
  }

  ghost predicate OpenReader(s: State, t: State, r: ReaderId) {
    && r !in s.readers
    && t == s.(readers := s.readers[r := if s.path.Some? then Opened(s.path.value, |s.log|) else Finished(None, |s.log|)])
  }

  ghost predicate FinishReader(s: State, t: State, r: ReaderId) {
    && r in s.readers && s.readers[r].Opened? && s.readers[r].fd in s.disk
    && t == s.(readers := s.readers[r := Finished(Some(View(s.disk[s.readers[r].fd])), s.readers[r].version)])
  }

  datatype Step =
    | StartStep(id: CallId, op: Op)
    | AcquireStep(id: CallId)
    | ReadStep(id: CallId)
    | OpenTempStep(id: CallId, fd: Inode)
    | FinishTempStep(id: CallId)
    | RenameStep(id: CallId)
    | ReleaseStep(id: CallId)
    | AbortStep(id: CallId)
    | OpenReaderStep(r: ReaderId)
    | FinishReaderStep(r: ReaderId)

  ghost predicate Next(s: State, t: State, step: Step) {
    match step
    case StartStep(id, op) => Start(s, t, id, op)
    case AcquireStep(id) => Acquire(s, t, id)
    case ReadStep(id) => Read(s, t, id)
    case OpenTempStep(id, fd) => OpenTemp(s, t, id, fd)
    case FinishTempStep(id) => FinishTemp(s, t, id)
    case RenameStep(id) => Rename(s, t, id)
    case ReleaseStep(id) => Release(s, t, id)
    case AbortStep(id) => Abort(s, t, id)
    case OpenReaderStep(r) => OpenReader(s, t, r)
    case FinishReaderStep(r) => FinishReader(s, t, r)
  }

  // A file left by earlier runs, or none; possibly a temp file left by a crash; nobody active.
  ghost predicate Initial(s: State) {
    && s.lock == None && s.calls == map[] && s.readers == map[] && s.log == []
    && (s.path.Some? ==> s.path.value in s.disk && s.disk[s.path.value].Whole?)
    && (s.temp.Some? ==> s.temp.value in s.disk && s.temp != s.path)
  }

  // ---------------------------------------------------------------- the serial specification

  function Applied(op: Op, file: Option<Doc>): Option<Doc> {
    if Effect(op, file).Some? then Effect(op, file) else file
  }

  // The file after the committed operations, one after another.
  function Fold(start: Option<Doc>, log: seq<Commit>): Option<Doc> {
    if log == [] then start else Applied(log[|log| - 1].op, Fold(start, log[..|log| - 1]))
  }

  // ---------------------------------------------------------------- the invariant

  ghost predicate LockHeld(s: State) {
    && (s.lock.Some? ==> s.lock.value in s.calls)
    && forall id :: id in s.calls ==> (Holding(s.calls[id].phase) <==> s.lock == Some(id))
  }

  ghost predicate FilesOk(s: State) {
    && (s.path.Some? ==> s.path.value in s.disk && s.disk[s.path.value].Whole?)
    && (s.temp.Some? ==> s.temp.value in s.disk && s.temp != s.path)
  }

  // What the lock holder knows about the file and the temp file.
  ghost predicate HolderOk(s: State, c: Call) {
    match c.phase
    case HasRead(seen) => seen == Shown(s)
    case Writing(next, fd) => Effect(c.op, Shown(s)) == Some(next) && s.temp == Some(fd)
    case Written(next) => Effect(c.op, Shown(s)) == Some(next) && s.temp.Some? && s.temp.value in s.disk && s.disk[s.temp.value] == Whole(next)
    case _ => true
  }

  ghost predicate HoldersOk(s: State) {
    forall id :: id in s.calls ==> HolderOk(s, s.calls[id])
  }

  predicate PastRename(p: Phase) {
    p.Committed? || p.Done?
  }

  ghost predicate Logged(calls: map<CallId, Call>, c: Commit) {
    c.id in calls && calls[c.id].op == c.op && PastRename(calls[c.id].phase)
  }

  // The log has one entry for every call past its rename, and none for any other.
  ghost predicate LogOk(calls: map<CallId, Call>, log: seq<Commit>) {
    && (forall c :: c in log ==> Logged(calls, c))
    && (forall i, j :: 0 <= i < j < |log| ==> log[i].id != log[j].id)
    && (forall id :: id in calls && PastRename(calls[id].phase) ==> Commit(id, calls[id].op) in log)
  }

  ghost predicate ReaderOk(s: State, start: Option<Doc>, r: Reader) {
    && r.version <= |s.log|
    && match r
       case Opened(fd, v) => fd in s.disk && s.temp != Some(fd) && s.disk[fd].Whole? && Fold(start, s.log[..v]) == Some(s.disk[fd].doc)
       case Finished(doc, v) => doc == Fold(start, s.log[..v])
  }

  ghost predicate ReadersOk(s: State, start: Option<Doc>) {
    forall r :: r in s.readers ==> ReaderOk(s, start, s.readers[r])
  }

  // Every committed operation really changed the file it found into the one it meant to write.
  ghost predicate Effective(start: Option<Doc>, log: seq<Commit>) {
    forall k :: 0 <= k < |log| ==> Effect(log[k].op, Fold(start, log[..k])).Some?
  }

  ghost predicate Inv(s: State, start: Option<Doc>) {
    && Effective(start, s.log)
    && LockHeld(s) && FilesOk(s) && HoldersOk(s) && LogOk(s.calls, s.log) && ReadersOk(s, start)
    && Shown(s) == Fold(start, s.log)
  }

  lemma {:induction false} InitialInv(s: State)
    requires Initial(s)
    ensures Inv(s, Shown(s))
  {
  }

  // A step that only moves calls around, none of them over its rename, keeps the log in order.
  lemma LogFrame(calls: map<CallId, Call>, id: CallId, c: Call, log: seq<Commit>)
    requires LogOk(calls, log) && !PastRename(c.phase)
    requires id in calls ==> !PastRename(calls[id].phase)
    ensures LogOk(calls[id := c], log)
  {
    forall e | e in log ensures Logged(calls[id := c], e) {
      assert Logged(calls, e);
    }
  }

  // The rename of a call puts its one entry into the log.
  lemma LogGrows(calls: map<CallId, Call>, id: CallId, log: seq<Commit>)
    requires LogOk(calls, log) && id in calls && !PastRename(calls[id].phase)
    ensures LogOk(calls[id := Call(calls[id].op, Committed)], log + [Commit(id, calls[id].op)])
  {
    var e0 := Commit(id, calls[id].op);
    assert e0 in log + [e0];
    forall e | e in log + [e0] ensures Logged(calls[id := Call(calls[id].op, Committed)], e) {
      if e in log { assert Logged(calls, e); }
    }
    forall i | 0 <= i < |log| ensures log[i].id != id {
      assert Logged(calls, log[i]);
    }
  }

  lemma LogReleased(calls: map<CallId, Call>, id: CallId, log: seq<Commit>)
    requires LogOk(calls, log) && id in calls && calls[id].phase.Committed?
    ensures LogOk(calls[id := Call(calls[id].op, Done)], log)
  {
    forall e | e in log ensures Logged(calls[id := Call(calls[id].op, Done)], e) {
      assert Logged(calls, e);
    }
  }

  lemma EffectiveGrows(start: Option<Doc>, log: seq<Commit>, c: Commit)
    requires Effective(start, log) && Effect(c.op, Fold(start, log)).Some?
    ensures Effective(start, log + [c])
    ensures Fold(start, log + [c]) == Effect(c.op, Fold(start, log))
  {
    var longer := log + [c];
    assert longer[..|log|] == log;
    forall k | 0 <= k < |longer| ensures Effect(longer[k].op, Fold(start, longer[..k])).Some? {
      if k < |log| { assert longer[..k] == log[..k]; }
    }
  }

  // Readers are not disturbed by a step that leaves alone every inode but the temp file's.
  lemma {:induction false} ReadersFrame(s: State, t: State, start: Option<Doc>)
    requires ReadersOk(s, start) && t.readers == s.readers && s.log <= t.log
    requires forall fd :: fd in s.disk && s.temp != Some(fd) ==> fd in t.disk && t.disk[fd] == s.disk[fd] && t.temp != Some(fd)
    ensures ReadersOk(t, start)
  {
    forall r | r in s.readers ensures ReaderOk(t, start, s.readers[r]) {
      assert ReaderOk(s, start, s.readers[r]);
      assert t.log[..s.readers[r].version] == s.log[..s.readers[r].version];
    }
  }

  // Callers without the lock know nothing that a step of the lock holder could falsify.
  lemma {:induction false} HoldersFrame(s: State, t: State, id: CallId)
    requires LockHeld(s) && HoldersOk(s)
    requires id in t.calls && t.calls == s.calls[id := t.calls[id]] && HolderOk(t, t.calls[id])
    requires s.lock == Some(id) || (t.path == s.path && t.temp == s.temp && t.disk == s.disk)
    ensures HoldersOk(t)
  {
    forall other | other in t.calls && other != id ensures HolderOk(t, t.calls[other]) {
      assert HolderOk(s, s.calls[other]);
    }
  }

  lemma {:induction false} StartKeeps(s: State, t: State, id: CallId, op: Op, start: Option<Doc>)
    requires Inv(s, start) && Start(s, t, id, op)
    ensures Inv(t, start) && s.log <= t.log
  {
    LogFrame(s.calls, id, t.calls[id], s.log);
    ReadersFrame(s, t, start);
    HoldersFrame(s, t, id);
  }

  lemma {:induction false} AcquireKeeps(s: State, t: State, id: CallId, start: Option<Doc>)
    requires Inv(s, start) && Acquire(s, t, id)
    ensures Inv(t, start) && s.log <= t.log
  {
    LogFrame(s.calls, id, t.calls[id], s.log);
    ReadersFrame(s, t, start);
    HoldersFrame(s, t, id);
  }

  lemma {:induction false} ReadKeeps(s: State, t: State, id: CallId, start: Option<Doc>)
    requires Inv(s, start) && Read(s, t, id)
    ensures Inv(t, start) && s.log <= t.log
  {
    LogFrame(s.calls, id, t.calls[id], s.log);
    ReadersFrame(s, t, start);
    HoldersFrame(s, t, id);
  }

  lemma {:induction false} OpenTempKeeps(s: State, t: State, id: CallId, fd: Inode, start: Option<Doc>)
    requires Inv(s, start) && OpenTemp(s, t, id, fd)
    ensures Inv(t, start) && s.log <= t.log
  {
    LogFrame(s.calls, id, t.calls[id], s.log);
    ReadersFrame(s, t, start);
    HoldersFrame(s, t, id);
  }

  lemma {:induction false} FinishTempKeeps(s: State, t: State, id: CallId, start: Option<Doc>)
    requires Inv(s, start) && FinishTemp(s, t, id)
    ensures Inv(t, start) && s.log <= t.log
  {
    LogFrame(s.calls, id, t.calls[id], s.log);
    ReadersFrame(s, t, start);
    HoldersFrame(s, t, id);
  }

  lemma {:induction false} RenameKeeps(s: State, t: State, id: CallId, start: Option<Doc>)
    requires Inv(s, start) && Rename(s, t, id)
    ensures Inv(t, start) && s.log <= t.log
  {
    LogGrows(s.calls, id, s.log);
    EffectiveGrows(start, s.log, Commit(id, s.calls[id].op));
    ReadersFrame(s, t, start);
    HoldersFrame(s, t, id);
  }

  lemma {:induction false} ReleaseKeeps(s: State, t: State, id: CallId, start: Option<Doc>)
    requires Inv(s, start) && Release(s, t, id)
    ensures Inv(t, start) && s.log <= t.log
  {
    LogReleased(s.calls, id, s.log);
    ReadersFrame(s, t, start);
    HoldersFrame(s, t, id);
  }

  lemma {:induction false} AbortKeeps(s: State, t: State, id: CallId, start: Option<Doc>)
    requires Inv(s, start) && Abort(s, t, id)
    ensures Inv(t, start) && s.log <= t.log
  {
    LogFrame(s.calls, id, t.calls[id], s.log);
    ReadersFrame(s, t, start);
    HoldersFrame(s, t, id);
  }

  lemma {:induction false} OpenReaderKeeps(s: State, t: State, r: ReaderId, start: Option<Doc>)
    requires Inv(s, start) && OpenReader(s, t, r)
    ensures Inv(t, start) && s.log <= t.log
  {
    assert s.log[..|s.log|] == s.log;
  }

  lemma {:induction false} FinishReaderKeeps(s: State, t: State, r: ReaderId, start: Option<Doc>)
    requires Inv(s, start) && FinishReader(s, t, r)
    ensures Inv(t, start) && s.log <= t.log
  {
  }

  lemma {:induction false} NextInv(s: State, t: State, step: Step, start: Option<Doc>)
    requires Inv(s, start) && Next(s, t, step)
    ensures Inv(t, start) && s.log <= t.log
  {
    match step
    case StartStep(id, op) => StartKeeps(s, t, id, op, start);
    case AcquireStep(id) => AcquireKeeps(s, t, id, start);
    case ReadStep(id) => ReadKeeps(s, t, id, start);
    case OpenTempStep(id, fd) => OpenTempKeeps(s, t, id, fd, start);
    case FinishTempStep(id) => FinishTempKeeps(s, t, id, start);
    case RenameStep(id) => RenameKeeps(s, t, id, start);
    case ReleaseStep(id) => ReleaseKeeps(s, t, id, start);
    case AbortStep(id) => AbortKeeps(s, t, id, start);
    case OpenReaderStep(r) => OpenReaderKeeps(s, t, r, start);
    case FinishReaderStep(r) => FinishReaderKeeps(s, t, r, start);
  }
}
