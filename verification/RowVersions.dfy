/** internal/artifact: the versioned rows under every interleaving of repository calls.

    Service calls overlap here: between reading a row and writing it back, a caller may be overtaken by any number of
    other calls.  A caller's snapshot is therefore any row that was ever stored, and the only protection is the
    version compare-and-swap of Update.  Row identifiers are random and never issued twice. */
module RowVersions {
  import opened ArtifactModel
  import opened ArtifactRepository
  import opened ArtifactService
  import opened Wrappers

  datatype Kind = Publish | FailUpload | Sweep | MarkDeleting | Extract

  datatype Step =
    | Create(row: Artifact)
    | Change(kind: Kind, read: Artifact, write: Artifact, fault: Fault)
    | Remove(ids: set<nat>, fault: Fault)

  /** `history` holds every row value that was ever stored. */
  datatype State = State(rows: Rows, history: set<Artifact>)

  const INITIAL := State(map[], {})

  predicate Closed(row: Artifact) {
    row.status == Failed || row.status == Deleting
  }

  /** What the service writes back over a row it has read. */
  predicate Writes(kind: Kind, a: Artifact, b: Artifact) {
    && b.version == a.version + 1
    && match kind
       case Publish => a.status == Uploading && a.version == 1 && Published(b)
                       && b == a.(status := b.status, version := 2, digest := b.digest, size := b.size, key := b.key, updatedAt := b.updatedAt)
       case FailUpload => a.status == Uploading && a.version == 1 && b == a.(status := Failed, version := 2, updatedAt := b.updatedAt)
       case Sweep => a.status == Uploading && b == a.(status := Failed, version := b.version, updatedAt := b.updatedAt)
       case MarkDeleting => a.status != Deleting && b == a.(status := Deleting, version := b.version, updatedAt := b.updatedAt)
       case Extract => a.status == Ready && a.extraction.None? && b.extraction.Some?
                       && b == a.(extraction := b.extraction, version := b.version, updatedAt := b.updatedAt)
  }

  /** The writes of the service calls are writes of this machine. */
  lemma ServiceWrites(service: Service, request: PutRequest, now: int, committedAt: int, row: Artifact, projection: nat)
    ensures Writes(Publish, service.UploadingRow(request, now), service.CommittedRow(request, now, committedAt))
    ensures row.status == Ready && row.extraction.None? ==> Writes(Extract, row, service.Projected(row, projection, now))
  {
    assert service.CommittedRow(request, now, committedAt).version == 2;
  }

  ghost predicate Enabled(s: State, step: Step) {
    match step
    case Create(row) =>
      && ValidRow(row) && row.version == 1 && row.status == Uploading && row.extraction.None? && row.key == NoKey
      && forall h | h in s.history :: h.id != row.id
    case Change(kind, read, write, _) => read in s.history && Writes(kind, read, write)
    case Remove(_, _) => true
  }

  predicate Applies(s: State, step: Step) {
    match step
    case Create(_) => true
    case Change(_, read, write, fault) => TakesEffect(UpdateResult(s.rows, write, read.version), fault)
    case Remove(_, fault) => fault != Refused
  }

  function Next(s: State, step: Step): State {
    if !Applies(s, step) then s else
    match step
    case Create(row) => State(s.rows[row.id := row], s.history + {row})
    case Change(_, _, write, _) => State(s.rows[write.id := write], s.history + {write})
    case Remove(ids, _) => State(s.rows - ids, s.history)
  }

  /** How a later value of one row relates to an earlier one: a closed row stays closed, a projection once written and
      an object once attached never change. */
  predicate Follows(a: Artifact, b: Artifact) {
    && (Closed(a) ==> Closed(b))
    && (a.extraction.Some? ==> b.extraction == a.extraction)
    && (a.key != NoKey ==> b.key == a.key && b.digest == a.digest && b.size == a.size)
  }

  /** The stored rows are the newest values of theirs. */
  ghost predicate Newest(rows: Rows, history: set<Artifact>) {
    && (forall id | id in rows :: rows[id].id == id && rows[id] in history)
    && (forall h | h in history && h.id in rows :: h.version <= rows[h.id].version)
  }

  /** A version stands for one value of a row, and later values follow earlier ones. */
  ghost predicate Ordered(history: set<Artifact>) {
    && (forall h | h in history :: h.version > 0 && (h.status == Uploading ==> h.key == NoKey))
    && (forall a, b | a in history && b in history && a.id == b.id && a.version == b.version :: a == b)
    && (forall a, b | a in history && b in history && a.id == b.id && a.version <= b.version :: Follows(a, b))
  }

  ghost predicate Inv(s: State) {
    Newest(s.rows, s.history) && Ordered(s.history)
  }

  /** A write that takes effect was computed from the row's current value, however old the snapshot is. */
  lemma SnapshotWasCurrent(s: State, step: Step)
    requires Inv(s) && Enabled(s, step) && step.Change? && Applies(s, step)
    ensures step.write.id in s.rows && s.rows[step.write.id] == step.read
    ensures Follows(step.read, step.write)
  {
    assert s.rows[step.write.id].version == step.read.version;
    assert s.rows[step.write.id] in s.history;
  }

  /** Storing a value that follows every earlier value of its row. */
  lemma StoreKeeps(s: State, row: Artifact)
    requires Inv(s) && row.version > 0 && (row.status == Uploading ==> row.key == NoKey)
    requires forall a | a in s.history && a.id == row.id :: a.version < row.version && Follows(a, row)
    ensures Inv(State(s.rows[row.id := row], s.history + {row}))
  {
    StoreIsNewest(s.rows, s.history, row);
    StoreIsOrdered(s.history, row);
  }

  lemma StoreIsNewest(rows: Rows, history: set<Artifact>, row: Artifact)
    requires Newest(rows, history) && forall a | a in history && a.id == row.id :: a.version < row.version
    ensures Newest(rows[row.id := row], history + {row})
  {
  }

  lemma StoreIsOrdered(history: set<Artifact>, row: Artifact)
    requires Ordered(history) && row.version > 0 && (row.status == Uploading ==> row.key == NoKey)
    requires forall a | a in history && a.id == row.id :: a.version < row.version && Follows(a, row)
    ensures Ordered(history + {row})
  {
  }

  lemma WriteKeeps(s: State, step: Step)
    requires Inv(s) && Enabled(s, step) && step.Change? && Applies(s, step)
    ensures Inv(State(s.rows[step.write.id := step.write], s.history + {step.write}))
  {
    SnapshotWasCurrent(s, step);
    forall a | a in s.history && a.id == step.write.id ensures a.version < step.write.version && Follows(a, step.write) {
      assert Follows(a, step.read);
    }
    StoreKeeps(s, step.write);
  }

  lemma StepKeeps(s: State, step: Step)
    requires Inv(s) && Enabled(s, step)
    ensures Inv(Next(s, step)) && s.history <= Next(s, step).history
  {
    if Applies(s, step) {
      match step
      case Create(row) => StoreKeeps(s, row);
      case Change(_, _, _, _) => WriteKeeps(s, step);
      case Remove(_, _) =>
    }
  }

  /** An applied write raises the version of its row by one; nothing else moves the version of a stored row. */
  lemma StepVersion(s: State, step: Step, id: nat)
    requires Inv(s) && Enabled(s, step) && id in s.rows && id in Next(s, step).rows
    ensures Next(s, step).rows[id].version ==
      s.rows[id].version + if step.Change? && step.write.id == id && Applies(s, step) then 1 else 0
  {
    if step.Create? {
      assert s.rows[id] in s.history;
    } else if step.Change? && Applies(s, step) {
      SnapshotWasCurrent(s, step);
    }
  }

  // ----- Runs -----

  ghost predicate IsRun(states: seq<State>, steps: seq<Step>) {
    && |states| == |steps| + 1 && states[0] == INITIAL
    && forall i | 0 <= i < |steps| :: IsStep(states[i], steps[i], states[i + 1])
  }

  ghost predicate IsStep(s: State, step: Step, t: State) {
    Enabled(s, step) && t == Next(s, step)
  }

  lemma StepOfRun(states: seq<State>, steps: seq<Step>, i: nat, j: nat)
    requires IsRun(states, steps) && i < |steps| && j == i + 1
    ensures Enabled(states[i], steps[i]) && states[j] == Next(states[i], steps[i])
  {
    assert IsStep(states[i], steps[i], states[i + 1]);
  }

  lemma {:induction false} RunKeeps(states: seq<State>, steps: seq<Step>, i: nat, j: nat)
    requires IsRun(states, steps) && i <= j < |states|
    ensures Inv(states[i]) && Inv(states[j]) && states[i].history <= states[j].history
    decreases j
  {
    if j > 0 {
      var k := j - 1;
      RunKeeps(states, steps, if i < j then i else k, k);
      StepOfRunKeeps(states, steps, k, j);
    }
  }

  lemma StepOfRunKeeps(states: seq<State>, steps: seq<Step>, i: nat, j: nat)
    requires IsRun(states, steps) && i < |steps| && j == i + 1 && Inv(states[i])
    ensures Inv(states[j]) && states[i].history <= states[j].history
  {
    StepOfRun(states, steps, i, j);
    StepKeeps(states[i], steps[i]);
  }

  /** Whatever was read of a row at some time, and however many calls came in between: when the stored version is still
      the same, so is the row.  This is what persistExtraction relies on when it writes back. */
  lemma SnapshotsAreHonest(states: seq<State>, steps: seq<Step>, i: nat, j: nat, item: Artifact)
    requires IsRun(states, steps) && i <= j < |states| && item in states[i].history
    ensures item.id in states[j].rows && states[j].rows[item.id].version == item.version ==> states[j].rows[item.id] == item
  {
    RunKeeps(states, steps, i, j);
    if item.id in states[j].rows {
      assert states[j].rows[item.id] in states[j].history;
    }
  }

  /** Over every run, a row that became failed or deleting never becomes ready or quarantined again, a projection is
      written once, a published object never changes, and a version number names one value of the row. */
  lemma RowsOnlyMoveForward(states: seq<State>, steps: seq<Step>, i: nat, j: nat, id: nat)
    requires IsRun(states, steps) && i <= j < |states| && id in states[i].rows && id in states[j].rows
    ensures states[i].rows[id].version <= states[j].rows[id].version
    ensures states[i].rows[id].version == states[j].rows[id].version ==> states[i].rows[id] == states[j].rows[id]
    ensures Follows(states[i].rows[id], states[j].rows[id])
    ensures Closed(states[i].rows[id]) ==> !Published(states[j].rows[id])
  {
    RunKeeps(states, steps, i, j);
    assert states[i].rows[id] in states[j].history && states[j].rows[id] in states[j].history;
  }

  /** A removed row never comes back. */
  lemma {:induction false} RemovedStaysRemoved(states: seq<State>, steps: seq<Step>, i: nat, j: nat, id: nat)
    requires IsRun(states, steps) && i <= j < |states|
    requires id !in states[i].rows && exists h :: h in states[i].history && h.id == id
    ensures id !in states[j].rows
    decreases j
  {
    if i < j {
      var k := j - 1;
      RemovedStaysRemoved(states, steps, i, k, id);
      RunKeeps(states, steps, i, k);
      var h :| h in states[i].history && h.id == id;
      assert h in states[k].history;
      StepOfRun(states, steps, k, j);
      if steps[k].Change? && Applies(states[k], steps[k]) {
        SnapshotWasCurrent(states[k], steps[k]);
      }
    }
  }

  /** An upload that the sweep has closed is never published, although its own publication may still be on its way. */
  lemma SweptUploadIsNeverPublished(states: seq<State>, steps: seq<Step>, i: nat, j: nat)
    requires IsRun(states, steps) && i < j < |states|
    requires steps[i].Change? && steps[i].kind == Sweep && Applies(states[i], steps[i])
    ensures steps[i].write.id in states[j].rows ==> !Published(states[j].rows[steps[i].write.id])
    ensures j < |steps| && steps[j].Change? && steps[j].kind == Publish && steps[j].write.id == steps[i].write.id ==>
              !Applies(states[j], steps[j])
  {
    var id, k := steps[i].write.id, i + 1;
    StepOfRun(states, steps, i, k);
    if id in states[j].rows {
      RowsOnlyMoveForward(states, steps, k, j, id);
    }
    if j < |steps| && steps[j].Change? && steps[j].kind == Publish && steps[j].write.id == id && Applies(states[j], steps[j]) {
      StepOfRun(states, steps, j, j + 1);
      RunKeeps(states, steps, j, j);
      SnapshotWasCurrent(states[j], steps[j]);
      assert false;
    }
  }

  /** Two writes that expect the same version of one row are never both applied, and so never both reported as
      successful. */
  lemma OneWriterWins(states: seq<State>, steps: seq<Step>, i: nat, j: nat)
    requires IsRun(states, steps) && i < j < |steps| && steps[i].Change? && steps[j].Change?
    requires steps[i].write.id == steps[j].write.id && steps[i].read.version == steps[j].read.version
    ensures !(Applies(states[i], steps[i]) && Applies(states[j], steps[j]))
  {
    if Applies(states[i], steps[i]) && Applies(states[j], steps[j]) {
      var id, k := steps[i].write.id, i + 1;
      StepOfRun(states, steps, i, k);
      StepOfRun(states, steps, j, j + 1);
      RunKeeps(states, steps, j, j);
      SnapshotWasCurrent(states[j], steps[j]);
      RowsOnlyMoveForward(states, steps, k, j, id);
      assert false;
    }
  }

  /** Counting the writes that were applied to a row. */
  ghost function AppliedWrites(states: seq<State>, steps: seq<Step>, id: nat, i: nat, j: nat): nat
    requires |states| == |steps| + 1 && i <= j <= |steps|
    decreases j
  {
    if i == j then 0 else
      AppliedWrites(states, steps, id, i, j - 1)
      + if steps[j - 1].Change? && steps[j - 1].write.id == id && Applies(states[j - 1], steps[j - 1]) then 1 else 0
  }

  lemma StoredThroughout(states: seq<State>, steps: seq<Step>, i: nat, k: nat, j: nat, id: nat)
    requires IsRun(states, steps) && i <= k <= j < |states| && id in states[i].rows && id in states[j].rows
    ensures id in states[k].rows
  {
    if id !in states[k].rows {
      RunKeeps(states, steps, i, k);
      assert states[i].rows[id] in states[i].history;
      RemovedStaysRemoved(states, steps, k, j, id);
      assert false;
    }
  }

  lemma VersionOfRun(states: seq<State>, steps: seq<Step>, k: nat, j: nat, id: nat)
    requires IsRun(states, steps) && k < |steps| && j == k + 1 && id in states[k].rows && id in states[j].rows
    ensures states[j].rows[id].version ==
      states[k].rows[id].version + if steps[k].Change? && steps[k].write.id == id && Applies(states[k], steps[k]) then 1 else 0
  {
    RunKeeps(states, steps, k, k);
    StepOfRun(states, steps, k, j);
    StepVersion(states[k], steps[k], id);
  }

  /** The version of a row counts exactly the writes applied to it: each raises it by one and nothing else moves it. */
  lemma {:induction false} VersionCountsWrites(states: seq<State>, steps: seq<Step>, i: nat, j: nat, id: nat)
    requires IsRun(states, steps) && i <= j <= |steps| && id in states[i].rows && id in states[j].rows
    ensures states[j].rows[id].version == states[i].rows[id].version + AppliedWrites(states, steps, id, i, j)
    decreases j
  {
    if i < j {
      StoredThroughout(states, steps, i, j - 1, j, id);
      VersionCountsWrites(states, steps, i, j - 1, id);
      VersionOfRun(states, steps, j - 1, j, id);
    }
  }
}
