/** Saving the contact directory, src/contact_manager.py: a save takes a snapshot under the
    registry lock, writes it without the lock, and takes the lock again to clear the dirty
    flag if no mutation was marked meanwhile.  Mutators run between any two of these steps. */
module SaveProtocol {
  import opened NodeRegistry

  /** The persisted document, without its time stamp and the opaque fields. */
  datatype Document = Document(local: Key, nodes: map<Key, Node>)

  /** What a complete document holds: the local key and, each with its own value, the nodes with a
      valid key and a name that is not a placeholder for an unknown one; and nothing else. */
  ghost predicate HoldsAll(doc: Document, local: Key, nodes: map<Key, Node>) {
    && doc.local == local
    && (forall k :: k in doc.nodes <==> k in nodes && IsValidKey(nodes[k].publicKey) && !("Node_unknow" <= nodes[k].name))
    && (forall k | k in doc.nodes :: doc.nodes[k] == nodes[k])
  }

  lemma UpToDateHoldsAll(s: System)
    requires UpToDate(s)
    ensures HoldsAll(s.disk, s.registry.local, s.registry.nodes)
  {
  }

  function DocumentOf(r: Registry): Document {
    Document(r.local, map k | k in Snapshot(r) :: r.nodes[k])
  }

  /** The one save in progress; `_save_lock` keeps it the only one. */
  datatype Save = Idle | Holding(generation: nat, doc: Document) | Written(generation: nat, doc: Document)

  /** `pending` counts changes made but not yet marked: a `cleanup_inactive` between its two lock
      sections, or a `set_local_pubkey` before it takes the lock.  `cleared` says that the local
      key was cleared, which is never marked, after the last mark. */
  datatype System = System(
    registry: Registry, dirty: bool, generation: nat, save: Save,
    disk: Document, diskGeneration: nat, pending: nat, cleared: bool)

  datatype Step =
    | Mutate(nodes: map<Key, Node>)             // a mutation and its mark, in one lock section
    | RemoveInactive(maxIdle: int, now: int)    // the first lock section of cleanup_inactive
    | AssignLocal(key: Key)                     // set_local_pubkey before it takes the lock
    | MarkPending(nodes: map<Key, Node>)        // the lock section that such a change still owes
    | BeginSave(force: bool)
    | WriteDocument(ok: bool)
    | ClearFlag

  predicate Enabled(s: System, step: Step) {
    match step
    case MarkPending(_) => s.pending > 0
    case BeginSave(_) => s.save.Idle?
    case WriteDocument(_) => s.save.Holding?
    case ClearFlag => s.save.Written?
    case _ => true
  }

  function WithMark(s: System, nodes: map<Key, Node>): System {
    s.(registry := s.registry.(nodes := nodes), dirty := true, generation := s.generation + 1, cleared := false)
  }

  function Next(s: System, step: Step): System
    requires Enabled(s, step)
  {
    match step
    case Mutate(nodes) => WithMark(s, nodes)
    case RemoveInactive(maxIdle, now) =>
      s.(registry := Cleaned(s.registry, maxIdle, now),
         pending := if Inactive(s.registry, maxIdle, now) == {} then s.pending else s.pending + 1)
    case AssignLocal(key) =>
      s.(registry := s.registry.(local := key), pending := if key == "" then s.pending else s.pending + 1,
         cleared := s.cleared || key == "")
    case MarkPending(nodes) => WithMark(s, nodes).(pending := s.pending - 1)
    case BeginSave(force) =>
      if !force && !s.dirty then s else s.(save := Holding(s.generation, DocumentOf(s.registry)))
    case WriteDocument(ok) =>
      if ok then s.(disk := s.save.doc, diskGeneration := s.save.generation, save := Written(s.save.generation, s.save.doc))
      else s.(save := Idle)
    case ClearFlag => s.(dirty := s.dirty && s.generation != s.save.generation, save := Idle)
  }

  function RunSteps(s: System, steps: seq<Step>): System
    decreases |steps|
  {
    if steps == [] then s
    else RunSteps(if Enabled(s, steps[0]) then Next(s, steps[0]) else s, steps[1..])
  }

  /** A registry just created or loaded: the store holds what it holds. */
  function Initial(r: Registry): System {
    System(r, false, 0, Idle, DocumentOf(r), 0, 0, false)
  }

  /** Every change has been marked. */
  predicate Settled(s: System) {
    s.pending == 0 && !s.cleared
  }

  predicate UpToDate(s: System) {
    s.disk == DocumentOf(s.registry)
  }

  ghost predicate NothingLost(s: System) {
    && (!s.dirty && Settled(s) ==> UpToDate(s))
    && (!s.save.Idle? ==> s.diskGeneration <= s.save.generation)
    && (!s.save.Idle? && s.save.generation == s.generation && Settled(s) ==> s.save.doc == DocumentOf(s.registry))
    && (!s.save.Idle? ==> s.save.generation <= s.generation)
    && (!s.save.Idle? && s.save.generation < s.generation ==> s.dirty)
    && (s.save.Written? ==> s.disk == s.save.doc)
    && s.diskGeneration <= s.generation
  }

  lemma NothingRemoved(r: Registry, maxIdle: int, now: int)
    requires Inactive(r, maxIdle, now) == {}
    ensures Cleaned(r, maxIdle, now) == r
  {
  }

  lemma StepLosesNothing(s: System, step: Step)
    requires NothingLost(s) && Enabled(s, step)
    ensures NothingLost(Next(s, step))
    ensures Next(s, step).diskGeneration >= s.diskGeneration
  {
    if step.RemoveInactive? && Inactive(s.registry, step.maxIdle, step.now) == {} {
      NothingRemoved(s.registry, step.maxIdle, step.now);
    }
  }

  /** No update is lost by saving: in every run, a clean registry all of whose changes have been
      marked equals the document last written; and an older document never replaces a newer. */
  lemma {:induction false} NoUpdateIsLost(s: System, steps: seq<Step>)
    requires NothingLost(s)
    ensures var t := RunSteps(s, steps);
            && NothingLost(t) && t.diskGeneration >= s.diskGeneration
            && (!t.dirty && Settled(t) ==> UpToDate(t) && HoldsAll(t.disk, t.registry.local, t.registry.nodes))
    decreases |steps|
  {
    if steps != [] {
      if Enabled(s, steps[0]) {
        StepLosesNothing(s, steps[0]);
      }
      NoUpdateIsLost(if Enabled(s, steps[0]) then Next(s, steps[0]) else s, steps[1..]);
    } else if UpToDate(s) {
      UpToDateHoldsAll(s);
    }
  }

  lemma InitialLosesNothing(r: Registry)
    ensures NothingLost(Initial(r))
  {
  }

  /** The machine's steps for an operation of the directory. */
  ghost function StepsOf(r: Registry, op: Op): seq<Step> {
    match op
    case SetLocal(key, primary) =>
      if key == "" then [AssignLocal(key)] else [AssignLocal(key), MarkPending(Apply(r, op).nodes)]
    case Cleanup(maxIdle, now) =>
      if Inactive(r, maxIdle, now) == {} then [RemoveInactive(maxIdle, now)]
      else [RemoveInactive(maxIdle, now), MarkPending(Cleaned(r, maxIdle, now).nodes)]
    case _ => if Marks(r, op) then [Mutate(Apply(r, op).nodes)] else []
  }

  lemma TwoSteps(s: System, first: Step, second: Step)
    requires Enabled(s, first) && Enabled(Next(s, first), second)
    ensures RunSteps(s, [first, second]) == Next(Next(s, first), second)
  {
    assert [first, second][1..] == [second];
    OneStep(Next(s, first), second);
  }

  lemma OneStep(s: System, step: Step)
    requires Enabled(s, step)
    ensures RunSteps(s, [step]) == Next(s, step)
  {
    assert [step][1..] == [];
  }

  /** What an operation does to the machine: to the registry what it does to the directory, to the
      store nothing; and it ends dirty, with one generation more, where it marks. */
  ghost predicate Performed(s: System, op: Op, t: System) {
    && t.registry == Apply(s.registry, op)
    && t.save == s.save && t.disk == s.disk && t.diskGeneration == s.diskGeneration && t.pending == s.pending
    && t.cleared == ((op.SetLocal? && op.key == "") || (s.cleared && t.generation == s.generation))
    && (t.dirty, t.generation) == if Owes(s.registry, op) then (true, s.generation + 1) else (s.dirty, s.generation)
  }

  ghost predicate Owes(r: Registry, op: Op) {
    Marks(r, op) || (op.Cleanup? && Inactive(r, op.maxIdle, op.now) != {})
  }

  lemma PerformedOnce(s: System, op: Op, t: System, t': System)
    requires Performed(s, op, t) && Performed(s, op, t')
    ensures t == t'
  {
  }

  /** Every operation of the directory is a run of the machine. */
  lemma OperationsAreSteps(s: System, op: Op)
    ensures Performed(s, op, RunSteps(s, StepsOf(s.registry, op)))
  {
    match op
    case SetLocal(key, primary) => LocalIsSteps(s, key, primary);
    case Cleanup(maxIdle, now) => CleanupIsSteps(s, maxIdle, now);
    case _ =>
      if Marks(s.registry, op) {
        MarkedIsStep(s, op);
      } else {
        UnmarkedChangesNothing(s.registry, op);
      }
  }

  lemma Mutating(s: System, r: Registry)
    requires r.local == s.registry.local
    ensures Next(s, Mutate(r.nodes)) == s.(registry := r, dirty := true, generation := s.generation + 1, cleared := false)
  {
  }

  lemma MarkedIsStep(s: System, op: Op)
    requires Marks(s.registry, op) && !op.SetLocal?
    ensures Performed(s, op, RunSteps(s, StepsOf(s.registry, op)))
  {
    LocalStays(s.registry, op);
    Mutating(s, Apply(s.registry, op));
    OneStep(s, Mutate(Apply(s.registry, op).nodes));
  }

  lemma SettingLocal(s: System, key: Key, nodes: map<Key, Node>)
    requires key != ""
    ensures Enabled(Next(s, AssignLocal(key)), MarkPending(nodes))
    ensures Next(Next(s, AssignLocal(key)), MarkPending(nodes))
         == s.(registry := Registry(nodes, key), dirty := true, generation := s.generation + 1, cleared := false)
  {
  }

  lemma WithLocalHasKey(r: Registry, key: Key, primary: Key)
    ensures WithLocal(r, key, primary).local == key
  {
  }

  lemma LocalIsSteps(s: System, key: Key, primary: Key)
    ensures Performed(s, SetLocal(key, primary), RunSteps(s, StepsOf(s.registry, SetLocal(key, primary))))
  {
    var r := WithLocal(s.registry, key, primary);
    WithLocalHasKey(s.registry, key, primary);
    if key == "" {
      OneStep(s, AssignLocal(key));
    } else {
      SettingLocal(s, key, r.nodes);
      TwoSteps(s, AssignLocal(key), MarkPending(r.nodes));
      assert r == Registry(r.nodes, key);
    }
  }

  lemma CleanupIsSteps(s: System, maxIdle: int, now: int)
    ensures Performed(s, Cleanup(maxIdle, now), RunSteps(s, StepsOf(s.registry, Cleanup(maxIdle, now))))
  {
    if Inactive(s.registry, maxIdle, now) == {} {
      NothingRemoved(s.registry, maxIdle, now);
      OneStep(s, RemoveInactive(maxIdle, now));
    } else {
      TwoSteps(s, RemoveInactive(maxIdle, now), MarkPending(Cleaned(s.registry, maxIdle, now).nodes));
    }
  }

  lemma LocalStays(r: Registry, op: Op)
    requires !op.SetLocal?
    ensures Apply(r, op).local == r.local
  {
  }

  /** Over all operations of the directory: on a clean one that is up to date, exactly clearing a
      local key that was set is lost; every other change is marked. */
  lemma OnlyClearingIsLost(s: System, op: Op)
    requires NothingLost(s) && !s.dirty && Settled(s)
    ensures var t := RunSteps(s, StepsOf(s.registry, op));
            t.dirty || UpToDate(t) <==> !(op.SetLocal? && op.key == "" && s.registry.local != "")
  {
    OperationsAreSteps(s, op);
    var t := RunSteps(s, StepsOf(s.registry, op));
    if !Owes(s.registry, op) {
      if op.SetLocal? {
        assert DocumentOf(t.registry).local == "";
        assert s.registry.local == "" ==> t.registry == s.registry;
      } else if op.Cleanup? {
        NothingRemoved(s.registry, op.maxIdle, op.now);
      } else {
        UnmarkedChangesNothing(s.registry, op);
      }
    }
  }

  /** A save that fails leaves the flag, the counter and the store alone, and a save that nothing
      interleaves with succeeds: the store is up to date and the flag is clear. */
  lemma UndisturbedSave(s: System, ok: bool)
    requires NothingLost(s) && s.save.Idle? && Settled(s)
    ensures var t := RunSteps(s, [BeginSave(true), WriteDocument(ok), ClearFlag]);
            if ok then UpToDate(t) && !t.dirty && t.save.Idle?
            else t == s
  {
    var steps := [BeginSave(true), WriteDocument(ok), ClearFlag];
    var s1 := Next(s, BeginSave(true));
    var s2 := Next(s1, WriteDocument(ok));
    assert steps[1..] == [WriteDocument(ok), ClearFlag] && steps[1..][1..] == [ClearFlag] && steps[1..][1..][1..] == [];
    assert RunSteps(s2, [ClearFlag]) == if ok then Next(s2, ClearFlag) else s2;
  }

  /** A mutation that slips in after the snapshot keeps the flag set. */
  lemma LateMutationStaysDirty(s: System, nodes: map<Key, Node>)
    requires NothingLost(s) && s.save.Written?
    ensures var t := Next(Next(s, Mutate(nodes)), ClearFlag); t.dirty && t.save.Idle?
  {
  }

  // ---------------------------------------------------------------- the program

  /** `save_to_file` on a directory; the ghost fields are the machine's bookkeeping. */
  class Saver {
    const directory: Directory
    var save: Save
    var disk: Document
    ghost var diskGeneration: nat
    ghost var pending: nat
    ghost var cleared: bool

    ghost function View(): System
      reads this, directory
    {
      System(directory.View(), directory.dirty, directory.generation, save, disk, diskGeneration, pending, cleared)
    }

    constructor (directory: Directory)
      requires !directory.dirty && directory.generation == 0
      ensures this.directory == directory && View() == Initial(directory.View())
    {
      this.directory := directory;
      save, disk := Idle, DocumentOf(directory.View());
      diskGeneration, pending, cleared := 0, 0, false;
    }

    /** An operation of the directory between the sections of a save. */
    method Perform(op: Op) returns (ghost done: Op)
      requires Inv(directory.View()) && NothingLost(View())
      modifies directory, this`cleared
      ensures NothingLost(View()) && Inv(directory.View())
      ensures done == op || (op.SetLocal? && done.SetLocal? && done.key == op.key && Possible(old(directory.View()), done))
      ensures View() == RunSteps(old(View()), StepsOf(old(directory.View()), done))
    {
      done := directory.Perform(op);
      cleared := (cleared && directory.generation == old(directory.generation)) || (op.SetLocal? && op.key == "");
      OperationsAreSteps(old(View()), done);
      PerformedOnce(old(View()), done, View(), RunSteps(old(View()), StepsOf(old(directory.View()), done)));
      NoUpdateIsLost(old(View()), StepsOf(old(directory.View()), done));
    }

    /** Under the registry lock: nothing to do, or a snapshot. */
    method SnapshotSection(force: bool)
      requires save.Idle?
      modifies this`save
      ensures View() == Next(old(View()), BeginSave(force))
    {
      if !force && !directory.dirty {
        return;
      }
      save := Holding(directory.generation, DocumentOf(directory.View()));
    }

    /** Without the lock; `ok` is what the file system or database makes of it. */
    method Write(ok: bool)
      requires save.Holding?
      modifies this`save, this`disk, this`diskGeneration
      ensures View() == Next(old(View()), WriteDocument(ok))
    {
      if !ok {
        save := Idle;
        return;
      }
      disk, diskGeneration := save.doc, save.generation;
      save := Written(save.generation, save.doc);
    }

    /** Under the registry lock again. */
    method ClearSection()
      requires save.Written?
      modifies this`save, directory`dirty
      ensures View() == Next(old(View()), ClearFlag)
    {
      if directory.generation == save.generation {
        directory.dirty := false;
      }
      save := Idle;
    }

    /** A save that nothing runs beside. */
    method SaveToFile(force: bool, ok: bool) returns (saved: bool)
      requires save.Idle? && NothingLost(View())
      modifies this, directory`dirty
      ensures NothingLost(View()) && save.Idle? && directory.View() == old(directory.View())
      ensures saved <==> ok || (!force && !old(directory.dirty))
      ensures saved && Settled(old(View())) ==> UpToDate(View())
      ensures saved ==> !directory.dirty
      ensures saved && (Settled(old(View())) || force || old(directory.dirty)) ==>
                HoldsAll(disk, directory.localPubkey, directory.nodes)
      ensures !saved ==> View() == old(View())
    {
      SnapshotSection(force);
      StepLosesNothing(old(View()), BeginSave(force));
      if save.Idle? {
        return true;
      }
      label written:
      Write(ok);
      StepLosesNothing(old@written(View()), WriteDocument(ok));
      if !ok {
        return false;
      }
      label cleared:
      ClearSection();
      StepLosesNothing(old@cleared(View()), ClearFlag);
      return true;
    }
  }
}
