// What every run of the shared-file protocol guarantees to its callers and readers.
module SharedFileRuns {
  import opened Basics
  import opened SharedFile

  ghost predicate StepAt(states: seq<State>, steps: seq<Step>, i: nat)
    requires |states| == |steps| + 1 && i < |steps|
  {
    Next(states[i], states[i + 1], steps[i])
  }

  ghost predicate IsRun(states: seq<State>, steps: seq<Step>) {
    && |states| == |steps| + 1 && Initial(states[0])
    && forall i {:trigger StepAt(states, steps, i)} :: 0 <= i < |steps| ==> StepAt(states, steps, i)
  }

  lemma {:induction false} RunInv(states: seq<State>, steps: seq<Step>, i: nat)
    requires IsRun(states, steps) && i < |states|
    ensures Inv(states[i], Shown(states[0]))
    decreases i
  {
    if i == 0 {
      InitialInv(states[0]);
    } else {
      RunInv(states, steps, i - 1);
      assert StepAt(states, steps, i - 1);
      NextInv(states[i - 1], states[i], steps[i - 1], Shown(states[0]));
    }
  }

  lemma {:induction false} PrefixChain(a: seq<Commit>, b: seq<Commit>, c: seq<Commit>)
    requires a <= b && b <= c
    ensures a <= c
  {
  }

  lemma {:induction false} StepGrowsLog(states: seq<State>, steps: seq<Step>, j: nat)
    requires IsRun(states, steps) && j < |steps|
    ensures states[j].log <= states[j + 1].log
  {
    assert StepAt(states, steps, j);
  }

  // Once committed, always committed, in the same place.
  lemma {:induction false} LogOnlyGrows(states: seq<State>, steps: seq<Step>, i: nat, j: nat)
    requires IsRun(states, steps) && i <= j < |states|
    ensures states[i].log <= states[j].log
    decreases j - i
  {
    if i < j {
      LogOnlyGrows(states, steps, i, j - 1);
      StepGrowsLog(states, steps, j - 1);
      PrefixChain(states[i].log, states[j - 1].log, states[j].log);
    }
  }

  lemma FoldOneMore(start: Option<Doc>, log: seq<Commit>, k: nat)
    requires k < |log| && Effective(start, log)
    ensures Effect(log[k].op, Fold(start, log[..k])).Some?
    ensures Fold(start, log[..k + 1]) == Effect(log[k].op, Fold(start, log[..k]))
  {
    assert log[..k + 1][..k] == log[..k];
  }

  // The shared file is always the initial file after the committed operations in commit order,
  // and each of those took effect on the version it followed.
  lemma {:induction false} Linearizable(states: seq<State>, steps: seq<Step>, i: nat)
    requires IsRun(states, steps) && i < |states|
    ensures var start, s := Shown(states[0]), states[i];
            && Shown(s) == Fold(start, s.log)
            && forall k :: 0 <= k < |s.log| ==> Fold(start, s.log[..k + 1]) == Effect(s.log[k].op, Fold(start, s.log[..k])) && Effect(s.log[k].op, Fold(start, s.log[..k])).Some?
  {
    RunInv(states, steps, i);
    var start, s := Shown(states[0]), states[i];
    forall k | 0 <= k < |s.log|
      ensures Fold(start, s.log[..k + 1]) == Effect(s.log[k].op, Fold(start, s.log[..k])) && Effect(s.log[k].op, Fold(start, s.log[..k])).Some?
    {
      FoldOneMore(start, s.log, k);
    }
  }

  // A call that returned normally committed exactly once; a call that failed, or has not
  // renamed yet, has no trace in the file.
  lemma {:induction false} CommittedExactlyOnce(states: seq<State>, steps: seq<Step>, i: nat, id: CallId)
    requires IsRun(states, steps) && i < |states| && id in states[i].calls
    ensures var s := states[i];
            && (PastRename(s.calls[id].phase) <==> exists k :: 0 <= k < |s.log| && s.log[k].id == id)
            && (forall k, l :: 0 <= k < |s.log| && 0 <= l < |s.log| && s.log[k].id == id && s.log[l].id == id ==> k == l)
            && (forall k :: 0 <= k < |s.log| && s.log[k].id == id ==> s.log[k].op == s.calls[id].op)
  {
    RunInv(states, steps, i);
    var s := states[i];
    forall k | 0 <= k < |s.log| && s.log[k].id == id ensures PastRename(s.calls[id].phase) && s.log[k].op == s.calls[id].op {
      assert Logged(s.calls, s.log[k]);
    }
    if PastRename(s.calls[id].phase) {
      var k :| 0 <= k < |s.log| && s.log[k] == Commit(id, s.calls[id].op);
    }
  }

  // A call that finished before another began is ahead of it in the commit order.
  lemma {:induction false} CommitOrderIsRealTime(states: seq<State>, steps: seq<Step>, i: nat, j: nat, k: nat, l: nat)
    requires IsRun(states, steps) && i <= j < |states|
    requires k < |states[i].log| && l < |states[j].log| && states[j].log[l].id !in states[i].calls
    ensures k < l
  {
    LogOnlyGrows(states, steps, i, j);
    RunInv(states, steps, i);
    var log := states[i].log;
    forall m | 0 <= m < |log| ensures log[m] == states[j].log[m] && log[m].id in states[i].calls {
      assert Logged(states[i].calls, log[m]);
    }
  }

  // The temp file belongs to the lock holder alone, and is never the inode of the shared file or
  // of a file some reader has open.
  lemma {:induction false} TempIsExclusive(states: seq<State>, steps: seq<Step>, i: nat)
    requires IsRun(states, steps) && i < |states|
    ensures var s := states[i];
            && (forall id :: id in s.calls && (s.calls[id].phase.Writing? || s.calls[id].phase.Written?) ==> s.lock == Some(id))
            && (forall id :: id in s.calls && s.calls[id].phase.Writing? ==> s.temp == Some(s.calls[id].phase.fd))
            && (s.temp.Some? ==> s.temp != s.path)
            && (forall r :: r in s.readers && s.readers[r].Opened? ==> s.temp != Some(s.readers[r].fd))
  {
    RunInv(states, steps, i);
    var s := states[i];
    forall id | id in s.calls && s.calls[id].phase.Writing? ensures s.temp == Some(s.calls[id].phase.fd) {
      assert HolderOk(s, s.calls[id]);
    }
    forall r | r in s.readers && s.readers[r].Opened? ensures s.temp != Some(s.readers[r].fd) {
      assert ReaderOk(s, Shown(states[0]), s.readers[r]);
    }
  }

  // An unlocked reader gets a committed version of the file, whole, whatever happens while it reads.
  lemma {:induction false} ReadersSeeCommits(states: seq<State>, steps: seq<Step>, i: nat, r: ReaderId)
    requires IsRun(states, steps) && i < |states| && r in states[i].readers && states[i].readers[r].Finished?
    ensures var s, x := states[i], states[i].readers[r];
            x.version <= |s.log| && x.doc == Fold(Shown(states[0]), s.log[..x.version])
  {
    RunInv(states, steps, i);
    assert ReaderOk(states[i], Shown(states[0]), states[i].readers[r]);
  }

  // A step leaves a reader's version alone, and a new reader starts at the current one.
  lemma {:induction false} StepReader(states: seq<State>, steps: seq<Step>, j: nat, r: ReaderId)
    requires IsRun(states, steps) && j < |steps| && r in states[j + 1].readers
    ensures if r in states[j].readers then states[j + 1].readers[r].version == states[j].readers[r].version
            else states[j + 1].readers[r].version == |states[j].log|
  {
    assert StepAt(states, steps, j);
  }

  lemma {:induction false} LateReaderIsRecent(states: seq<State>, steps: seq<Step>, i: nat, j: nat, r: ReaderId)
    requires IsRun(states, steps) && i <= j < |states|
    requires r !in states[i].readers && r in states[j].readers
    ensures |states[i].log| <= states[j].readers[r].version
    decreases j - i
  {
    StepReader(states, steps, j - 1, r);
    if r in states[j - 1].readers {
      LateReaderIsRecent(states, steps, i, j - 1, r);
    } else {
      LogOnlyGrows(states, steps, i, j - 1);
    }
  }

  // Reads do not go back in time: a reader that opens the file later sees no older version.
  lemma {:induction false} ReadsAreMonotone(states: seq<State>, steps: seq<Step>, i: nat, j: nat, early: ReaderId, late: ReaderId)
    requires IsRun(states, steps) && i <= j < |states|
    requires early in states[i].readers && late !in states[i].readers && late in states[j].readers
    ensures states[i].readers[early].version <= states[j].readers[late].version
  {
    RunInv(states, steps, i);
    assert ReaderOk(states[i], Shown(states[0]), states[i].readers[early]);
    LateReaderIsRecent(states, steps, i, j, late);
  }

  // ---------------------------------------------------------------- lists and registries

  function ItemsOf(log: seq<Commit>): seq<Item>
    requires forall c :: c in log ==> c.op.Append?
  {
    if log == [] then [] else ItemsOf(log[..|log| - 1]) + [log[|log| - 1].op.item]
  }

  function ListAt(file: Option<Doc>): seq<Item> {
    if file.Some? && file.value.List? then file.value.items else []
  }

  // A file that only ever gets appends is its initial list and then every appended item, once,
  // in commit order.
  lemma {:induction false} AppendsAccumulate(start: Option<Doc>, log: seq<Commit>)
    requires start.None? || start.value.List?
    requires forall c :: c in log ==> c.op.Append?
    ensures Fold(start, log).None? || Fold(start, log).value.List?
    ensures ListAt(Fold(start, log)) == ListAt(start) + ItemsOf(log)
    decreases |log|
  {
    if log != [] {
      AppendsAccumulate(start, log[..|log| - 1]);
    }
  }

  // Successive versions of such a list are a growing chain of prefixes.
  lemma {:induction false} VersionsArePrefixes(start: Option<Doc>, log: seq<Commit>, v: nat, w: nat)
    requires start.None? || start.value.List?
    requires forall c :: c in log ==> c.op.Append?
    requires v <= w <= |log|
    ensures ListAt(Fold(start, log[..v])) <= ListAt(Fold(start, log[..w]))
    decreases w - v
  {
    if v < w {
      VersionsArePrefixes(start, log, v, w - 1);
      assert log[..w][..w - 1] == log[..w - 1];
      OneMoreAppended(start, log[..w]);
    }
  }

  lemma {:induction false} OneMoreAppended(start: Option<Doc>, log: seq<Commit>)
    requires start.None? || start.value.List?
    requires log != [] && forall c :: c in log ==> c.op.Append?
    ensures ListAt(Fold(start, log[..|log| - 1])) <= ListAt(Fold(start, log))
  {
    AppendsAccumulate(start, log);
    AppendsAccumulate(start, log[..|log| - 1]);
  }

  // No two rows share an id.
  ghost predicate UniqueIds(file: Option<Doc>) {
    file.Some? && file.value.Registry? ==>
      var rows := file.value.rows;
      forall i, j :: 0 <= i < j < |rows| ==> rows[i].id != rows[j].id
  }

  lemma UpsertKeepsIds(rows: seq<Row>, row: Row)
    requires UniqueIds(Some(Registry(rows)))
    ensures UniqueIds(Some(Registry(Upsert(rows, row))))
  {
    var k := IndexOf(rows, row.id);
    var r := Upsert(rows, row);
    if k < |rows| {
      assert forall i :: 0 <= i < |rows| ==> r[i].id == rows[i].id;
    }
  }

  lemma SetFieldKeepsIds(rows: seq<Row>, id: string, value: string)
    requires UniqueIds(Some(Registry(rows)))
    ensures UniqueIds(Some(Registry(SetField(rows, id, value))))
  {
    assert forall i :: 0 <= i < |rows| ==> SetField(rows, id, value)[i].id == rows[i].id;
  }

  // Registrations and status updates, in any number and order, leave one row for each id.
  lemma {:induction false} RegistryIdsStayUnique(start: Option<Doc>, log: seq<Commit>)
    requires UniqueIds(start)
    requires forall c :: c in log ==> c.op.WriteState? ==> UniqueIds(Some(c.op.doc))
    ensures UniqueIds(Fold(start, log))
    decreases |log|
  {
    if log != [] {
      var before, op := Fold(start, log[..|log| - 1]), log[|log| - 1].op;
      RegistryIdsStayUnique(start, log[..|log| - 1]);
      if before.Some? && before.value.Registry? {
        if op.Register? { UpsertKeepsIds(before.value.rows, op.row); }
        if op.UpdateStatus? { SetFieldKeepsIds(before.value.rows, op.id, op.status); }
      }
    }
  }

  // ---------------------------------------------------------------- what the registry shows

  // The operations on a registry, and the value that one gives to the row of an id.
  predicate OnRegistry(op: Op) {
    op.Register? || op.UpdateStatus?
  }

  predicate Sets(op: Op, id: string, value: string) {
    op == UpdateStatus(id, value) || (op.Register? && op.row.id == id && op.row.field == value)
  }

  predicate Touches(op: Op, id: string) {
    (op.Register? && op.row.id == id) || (op.UpdateStatus? && op.id == id)
  }

  // The first row with this id shows this value.
  ghost predicate ShowsField(file: Option<Doc>, id: string, value: string) {
    && file.Some? && file.value.Registry?
    && exists k: nat :: FirstWith(file.value.rows, id, k) && file.value.rows[k].field == value
  }

  lemma FirstIsIndex(rows: seq<Row>, id: string, k: nat)
    requires FirstWith(rows, id, k)
    ensures k == IndexOf(rows, id)
  {
  }

  // An operation on an id makes its row show the value it sets ...
  lemma {:induction false} SetIsShown(op: Op, file: Option<Doc>, id: string, value: string)
    requires Sets(op, id, value) && Effect(op, file).Some?
    ensures ShowsField(Effect(op, file), id, value)
  {
    var rows := if file.Some? && file.value.Registry? then file.value.rows else [];
    var after := Effect(op, file).value.rows;
    assert FirstWith(after, id, IndexOf(rows, id));
  }

  function RowsIn(file: Option<Doc>): seq<Row> {
    if file.Some? && file.value.Registry? then file.value.rows else []
  }

  // ... and leaves the rows of all other ids as they were.
  lemma {:induction false} OtherRowsKept(op: Op, file: Option<Doc>, id: string, k: nat)
    requires OnRegistry(op) && !Touches(op, id) && Effect(op, file).Some?
    ensures Effect(op, file).value.Registry?
    ensures var rows, after := RowsIn(file), Effect(op, file).value.rows;
            && (FirstWith(rows, id, k) <==> FirstWith(after, id, k))
            && (FirstWith(rows, id, k) ==> after[k] == rows[k])
  {
    var rows, after := RowsIn(file), Effect(op, file).value.rows;
    assert |rows| <= |after| && forall j :: 0 <= j < |rows| ==> after[j].id == rows[j].id && (rows[j].id == id ==> after[j] == rows[j]);
    assert forall j :: |rows| <= j < |after| ==> after[j].id != id;
  }

  lemma {:induction false} OthersAreKept(op: Op, file: Option<Doc>, id: string, value: string)
    requires OnRegistry(op) && !Touches(op, id) && Effect(op, file).Some?
    ensures ShowsField(Effect(op, file), id, value) <==> ShowsField(file, id, value)
  {
    if ShowsField(file, id, value) {
      var k: nat :| FirstWith(RowsIn(file), id, k) && RowsIn(file)[k].field == value;
      OtherRowsKept(op, file, id, k);
      assert FirstWith(Effect(op, file).value.rows, id, k);
    }
    if ShowsField(Effect(op, file), id, value) {
      var k: nat :| FirstWith(Effect(op, file).value.rows, id, k) && Effect(op, file).value.rows[k].field == value;
      OtherRowsKept(op, file, id, k);
      assert FirstWith(RowsIn(file), id, k) && RowsIn(file)[k].field == value;
    }
  }

  // No operation from place k of the log on is on this id.
  ghost predicate UntouchedFrom(log: seq<Commit>, k: nat, id: string) {
    forall j :: k <= j < |log| ==> !Touches(log[j].op, id)
  }

  lemma {:induction false} KeptFrom(start: Option<Doc>, log: seq<Commit>, k: nat, id: string, value: string)
    requires k <= |log| && Effective(start, log) && (forall j :: k <= j < |log| ==> OnRegistry(log[j].op)) && UntouchedFrom(log, k, id)
    ensures ShowsField(Fold(start, log), id, value) <==> ShowsField(Fold(start, log[..k]), id, value)
    decreases |log|
  {
    if k == |log| {
      assert log[..k] == log;
    } else {
      var init, last := log[..|log| - 1], log[|log| - 1];
      FoldOneMore(start, log, |log| - 1);
      assert init[..k] == log[..k];
      InitIsEffective(start, log);
      KeptFrom(start, init, k, id, value);
      OthersAreKept(last.op, Fold(start, init), id, value);
      assert log[..|log|] == log;
    }
  }

  lemma InitIsEffective(start: Option<Doc>, log: seq<Commit>)
    requires log != [] && Effective(start, log)
    ensures Effective(start, log[..|log| - 1])
  {
    var init := log[..|log| - 1];
    forall k | 0 <= k < |init| ensures Effect(init[k].op, Fold(start, init[..k])).Some? {
      assert init[..k] == log[..k];
    }
  }

  // In every reachable state of a registry, the row of an id shows the value of the last committed
  // operation on that id, or what it showed at the start if there was none.
  lemma {:induction false} LastOperationIsShown(states: seq<State>, steps: seq<Step>, i: nat, k: nat, id: string, value: string)
    requires IsRun(states, steps) && i < |states|
    requires k < |states[i].log| && Sets(states[i].log[k].op, id, value) && UntouchedFrom(states[i].log, k + 1, id)
    requires forall j :: k < j < |states[i].log| ==> OnRegistry(states[i].log[j].op)
    ensures ShowsField(Shown(states[i]), id, value)
  {
    RunInv(states, steps, i);
    var start, log := Shown(states[0]), states[i].log;
    FoldOneMore(start, log, k);
    SetIsShown(log[k].op, Fold(start, log[..k]), id, value);
    KeptFrom(start, log, k + 1, id, value);
  }

  lemma {:induction false} UntouchedIsKept(states: seq<State>, steps: seq<Step>, i: nat, id: string, value: string)
    requires IsRun(states, steps) && i < |states| && forall c :: c in states[i].log ==> OnRegistry(c.op)
    requires UntouchedFrom(states[i].log, 0, id)
    ensures ShowsField(Shown(states[i]), id, value) <==> ShowsField(Shown(states[0]), id, value)
  {
    RunInv(states, steps, i);
    KeptFrom(Shown(states[0]), states[i].log, 0, id, value);
    assert states[i].log[..0] == [];
  }
}
