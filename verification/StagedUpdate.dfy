/** The staged update of scripts/staged_update.py: `apply` switches release files in,
    `rollback` takes them out again, and a write-ahead journal lets `rollback` start from
    any point at which either of them was cut.

    Every journal write and every rename is one atomic step.  A call is given the number of
    steps it may take before it is cut, so "for every `cut`" means "for every crash point". */
module StagedUpdate {
  import opened Common

  type Component = string
  type Content = string
  type Folder = map<Component, Content>

  datatype Journal = Journal(moved: seq<Component>, installed: seq<Component>)

  const EMPTY := Journal([], [])

  /** The three folders and the journal.  `destroyed` counts the paths that a delete or a
      rename onto an existing path has wiped out; the program keeps no such counter. */
  datatype Disk = Disk(target: Folder, release: Folder, backup: Folder, journal: Journal, destroyed: nat)

  /** `done` says the call ran to its end, `left` how many steps it could still have taken. */
  datatype Outcome = Outcome(disk: Disk, done: bool, left: nat)

  datatype Command =
    | Apply(cut: nat)                               // killed after `cut` steps
    | ApplyRaising(cut: nat, recoveryCut: nat)      // a step raises: apply calls rollback itself
    | Rollback(cut: nat)

  // ---------------------------------------------------------------- atomic steps

  function At(m: Folder, c: Component): Option<Content> {
    if c in m then Some(m[c]) else None
  }

  function Wiped(m: Folder, c: Component): nat {
    if c in m then 1 else 0
  }

  function Write(d: Disk, j: Journal): Disk {
    d.(journal := j)
  }

  function MoveOut(d: Disk, c: Component): Disk
    requires c in d.target
  {
    d.(target := d.target - {c}, backup := d.backup[c := d.target[c]],
       destroyed := d.destroyed + Wiped(d.backup, c))
  }

  function Install(d: Disk, c: Component): Disk
    requires c in d.release
  {
    d.(target := d.target[c := d.release[c]], release := d.release - {c},
       destroyed := d.destroyed + Wiped(d.target, c))
  }

  function Delete(d: Disk, c: Component): Disk {
    d.(release := d.release - {c}, destroyed := d.destroyed + Wiped(d.release, c))
  }

  function Quarantine(d: Disk, c: Component): Disk
    requires c in d.target
  {
    d.(target := d.target - {c}, release := d.release[c := d.target[c]],
       destroyed := d.destroyed + Wiped(d.release, c))
  }

  function Restore(d: Disk, c: Component): Disk
    requires c in d.backup
  {
    d.(target := d.target[c := d.backup[c]], backup := d.backup - {c},
       destroyed := d.destroyed + Wiped(d.target, c))
  }

  // ---------------------------------------------------------------- calls, cut after `cut` steps

  function LogMoved(d: Disk, c: Component): Disk {
    Write(d, d.journal.(moved := d.journal.moved + [c]))
  }

  function LogInstalled(d: Disk, c: Component): Disk {
    Write(d, d.journal.(installed := d.journal.installed + [c]))
  }

  /** The installed file, if there is one, put into the backup. */
  function Saved(d: Disk, c: Component): Disk {
    if c in d.target then MoveOut(LogMoved(d, c), c) else d
  }

  /** The loop body of `apply` for a component that the release has. */
  function SwitchOne(d: Disk, c: Component, cut: nat): Outcome
    requires c in d.release
  {
    if c in d.target && cut == 0 then Outcome(d, false, 0)
    else if c in d.target && cut == 1 then Outcome(LogMoved(d, c), false, 0)
    else
      var saved := Saved(d, c);
      var left := if c in d.target then cut - 2 else cut;
      if left == 0 then Outcome(saved, false, 0)
      else if left == 1 then Outcome(LogInstalled(saved, c), false, 0)
      else Outcome(Install(LogInstalled(saved, c), c), true, left - 2)
  }

  /** The loop of `apply` over the components `cs` still to visit. */
  function ApplyFrom(cs: seq<Component>, d: Disk, cut: nat): Outcome {
    if cs == [] then Outcome(d, true, cut)
    else if cs[0] !in d.release then ApplyFrom(cs[1..], d, cut)
    else
      var o := SwitchOne(d, cs[0], cut);
      if o.done then ApplyFrom(cs[1..], o.disk, o.left) else o
  }

  /** The loop body of `rollback` for a component that it takes back. */
  function UninstallOne(d: Disk, c: Component, cut: nat): Outcome
    requires c in d.target
  {
    if c in d.release && cut == 0 then Outcome(d, false, 0)
    else
      var cleared := if c in d.release then Delete(d, c) else d;
      var left := if c in d.release then cut - 1 else cut;
      if left == 0 then Outcome(cleared, false, 0) else Outcome(Quarantine(cleared, c), true, left - 1)
  }

  /** The first loop of `rollback`: the components of `list`, last first. */
  function UninstallFrom(list: seq<Component>, moved: seq<Component>, d: Disk, cut: nat): Outcome {
    if list == [] then Outcome(d, true, cut)
    else
      var c, rest := list[|list| - 1], list[..|list| - 1];
      if c !in d.target || (c in moved && c !in d.backup) then UninstallFrom(rest, moved, d, cut)
      else
        var o := UninstallOne(d, c, cut);
        if o.done then UninstallFrom(rest, moved, o.disk, o.left) else o
  }

  /** The second loop of `rollback`. */
  function RestoreFrom(list: seq<Component>, d: Disk, cut: nat): Outcome {
    if list == [] then Outcome(d, true, cut)
    else
      var c, rest := list[|list| - 1], list[..|list| - 1];
      if c !in d.backup then RestoreFrom(rest, d, cut)
      else if cut == 0 then Outcome(d, false, 0)
      else RestoreFrom(rest, Restore(d, c), cut - 1)
  }

  /** The journal check of `_state`; the calls raise and change nothing when it fails. */
  predicate Readable(cs: seq<Component>, j: Journal) {
    && (forall c | c in j.moved :: c in cs)
    && (forall c | c in j.installed :: c in cs)
  }

  function RollbackFrom(cs: seq<Component>, d: Disk, cut: nat): Outcome {
    if !Readable(cs, d.journal) then Outcome(d, false, cut)
    else
      var u := UninstallFrom(d.journal.installed, d.journal.moved, d, cut);
      if !u.done then u
      else
        var r := RestoreFrom(d.journal.moved, u.disk, u.left);
        if !r.done then r
        else if r.left == 0 then Outcome(r.disk, false, 0)
        else Outcome(Write(r.disk, EMPTY), true, r.left - 1)
  }

  function Call(cs: seq<Component>, d: Disk, cmd: Command): Outcome {
    if cmd.Rollback? then RollbackFrom(cs, d, cmd.cut)
    else if !Readable(cs, d.journal) || d.journal != EMPTY then Outcome(d, false, cmd.cut)
    else
      var a := ApplyFrom(cs, d, cmd.cut);
      if !a.done && cmd.ApplyRaising? then RollbackFrom(cs, a.disk, cmd.recoveryCut).(done := false) else a
  }

  function Run(cs: seq<Component>, d: Disk, cmds: seq<Command>): Disk {
    if cmds == [] then d
    else Call(cs, Run(cs, d, cmds[..|cmds| - 1]), cmds[|cmds| - 1]).disk
  }

  // ---------------------------------------------------------------- the recovery invariant

  /** The disk as `prepare` leaves it: installation `t0`, staged release `r0`. */
  function Clean(t0: Folder, r0: Folder): Disk {
    Disk(t0, r0, map[], EMPTY, 0)
  }

  ghost predicate Home(d: Disk, c: Component, t0: Folder, r0: Folder) {
    At(d.target, c) == At(t0, c) && At(d.release, c) == At(r0, c) && c !in d.backup
  }

  /** Old file in the backup, new file still staged. */
  ghost predicate Out(d: Disk, c: Component, t0: Folder, r0: Folder) {
    && c in t0 && c in r0 && c in d.journal.moved
    && c !in d.target && At(d.release, c) == At(r0, c) && At(d.backup, c) == At(t0, c)
  }

  /** Old file (if any) in the backup, new file in the installation. */
  ghost predicate In(d: Disk, c: Component, t0: Folder, r0: Folder) {
    && c in r0 && c in d.journal.installed && (c in t0 ==> c in d.journal.moved)
    && At(d.target, c) == At(r0, c) && c !in d.release && At(d.backup, c) == At(t0, c)
  }

  ghost predicate Placed(d: Disk, c: Component, t0: Folder, r0: Folder) {
    Home(d, c, t0, r0) || Out(d, c, t0, r0) || In(d, c, t0, r0)
  }

  ghost predicate Recoverable(cs: seq<Component>, d: Disk, t0: Folder, r0: Folder) {
    && d.destroyed == 0
    && Readable(cs, d.journal)
    && (forall c | c in d.journal.moved :: c in t0 && c in r0)
    && (forall c | c in d.journal.installed :: c in r0 && (c in t0 ==> c in d.journal.moved))
    && (forall c: Component :: Placed(d, c, t0, r0))
  }

  predicate Distinct(cs: seq<Component>) {
    forall i, j | 0 <= i < j < |cs| :: cs[i] != cs[j]
  }

  /** What a recoverable disk means for the files: each old file is in exactly one of
      target and backup, each new one in exactly one of release and target, untouched names
      are untouched, no rename ran ahead of its journal entry, and nothing was wiped out. */
  lemma RecoverableMeans(cs: seq<Component>, d: Disk, t0: Folder, r0: Folder, c: Component)
    requires Recoverable(cs, d, t0, r0)
    ensures c in d.backup ==> c in t0 && d.backup[c] == t0[c] && c in d.journal.moved
    ensures c in t0 && c !in d.backup ==> At(d.target, c) == Some(t0[c])
    ensures c in d.release ==> c in r0 && d.release[c] == r0[c]
    ensures c in r0 && c !in d.release ==> At(d.target, c) == Some(r0[c]) && c in d.journal.installed
    ensures c in d.backup && c in d.target ==> c !in d.release
    ensures c !in cs ==> Home(d, c, t0, r0)
    ensures d.destroyed == 0
  {
    assert Placed(d, c, t0, r0);
  }

  // ---------------------------------------------------------------- apply

  /** Between two components `apply` has either not touched a component or installed it. */
  ghost predicate Midway(cs: seq<Component>, rest: seq<Component>, d: Disk, t0: Folder, r0: Folder) {
    && Recoverable(cs, d, t0, r0)
    && Distinct(rest)
    && (forall c | c in rest :: c in cs && Home(d, c, t0, r0))
    && (forall c | c in cs && c in r0 && c !in rest :: In(d, c, t0, r0))
  }

  lemma LoggingKeeps(cs: seq<Component>, d: Disk, c: Component, t0: Folder, r0: Folder)
    requires Recoverable(cs, d, t0, r0) && c in cs && c in r0
    ensures c in t0 ==> Recoverable(cs, LogMoved(d, c), t0, r0)
    ensures c !in t0 || c in d.journal.moved ==> Recoverable(cs, LogInstalled(d, c), t0, r0)
  {
    forall x: Component
      ensures Placed(LogMoved(d, c), x, t0, r0) && Placed(LogInstalled(d, c), x, t0, r0)
    {
      assert Placed(d, x, t0, r0);
    }
  }

  lemma MovingOutKeeps(cs: seq<Component>, d: Disk, c: Component, t0: Folder, r0: Folder)
    requires Recoverable(cs, d, t0, r0) && Home(d, c, t0, r0) && c in d.target && c in r0 && c in d.journal.moved
    ensures Recoverable(cs, MoveOut(d, c), t0, r0) && Out(MoveOut(d, c), c, t0, r0)
  {
    forall x: Component
      ensures Placed(MoveOut(d, c), x, t0, r0)
    {
      assert Placed(d, x, t0, r0);
    }
  }

  lemma InstallingKeeps(cs: seq<Component>, d: Disk, c: Component, t0: Folder, r0: Folder)
    requires Recoverable(cs, d, t0, r0) && c in d.release && c !in d.target && c in d.journal.installed
    requires Out(d, c, t0, r0) || (Home(d, c, t0, r0) && c !in t0)
    ensures Recoverable(cs, Install(d, c), t0, r0) && In(Install(d, c), c, t0, r0)
  {
    forall x: Component
      ensures Placed(Install(d, c), x, t0, r0)
    {
      assert Placed(d, x, t0, r0);
    }
  }

  lemma SavingKeeps(cs: seq<Component>, d: Disk, c: Component, t0: Folder, r0: Folder)
    requires Recoverable(cs, d, t0, r0) && Home(d, c, t0, r0) && c in cs && c in r0
    ensures c in d.target ==> Recoverable(cs, LogMoved(d, c), t0, r0)
    ensures Recoverable(cs, Saved(d, c), t0, r0) && c !in Saved(d, c).target && c in Saved(d, c).release
    ensures Out(Saved(d, c), c, t0, r0) || (Home(Saved(d, c), c, t0, r0) && c !in t0)
  {
    if c in d.target {
      LoggingKeeps(cs, d, c, t0, r0);
      MovingOutKeeps(cs, LogMoved(d, c), c, t0, r0);
    }
  }

  /** The disk after the component at the head of the list has been switched. */
  function Switched(d: Disk, c: Component): Disk
    requires c in d.release
  {
    Install(LogInstalled(Saved(d, c), c), c)
  }

  lemma SwitchedKeeps(cs: seq<Component>, d: Disk, c: Component, t0: Folder, r0: Folder)
    requires Recoverable(cs, d, t0, r0) && Home(d, c, t0, r0) && c in cs && c in r0
    ensures Recoverable(cs, LogInstalled(Saved(d, c), c), t0, r0)
    ensures Recoverable(cs, Switched(d, c), t0, r0) && In(Switched(d, c), c, t0, r0)
  {
    SavingKeeps(cs, d, c, t0, r0);
    LoggingKeeps(cs, Saved(d, c), c, t0, r0);
    InstallingKeeps(cs, LogInstalled(Saved(d, c), c), c, t0, r0);
  }

  lemma SwitchingKeeps(cs: seq<Component>, rest: seq<Component>, d: Disk, t0: Folder, r0: Folder)
    requires Midway(cs, rest, d, t0, r0) && rest != [] && rest[0] in d.release
    ensures var c := rest[0];
            && (c in d.target ==> Recoverable(cs, LogMoved(d, c), t0, r0))
            && Recoverable(cs, Saved(d, c), t0, r0)
            && Recoverable(cs, LogInstalled(Saved(d, c), c), t0, r0)
            && Midway(cs, rest[1..], Switched(d, c), t0, r0)
  {
    var c := rest[0];
    assert c in rest;
    SavingKeeps(cs, d, c, t0, r0);
    SwitchedKeeps(cs, d, c, t0, r0);
    forall x | x in rest[1..]
      ensures x in cs && Home(Switched(d, c), x, t0, r0)
    {
      assert x in rest && x != c;
    }
  }

  lemma {:induction false} ApplyKeeps(cs: seq<Component>, rest: seq<Component>, d: Disk, cut: nat, t0: Folder, r0: Folder)
    requires Midway(cs, rest, d, t0, r0)
    ensures var a := ApplyFrom(rest, d, cut);
            Recoverable(cs, a.disk, t0, r0) && (a.done ==> Midway(cs, [], a.disk, t0, r0))
    decreases |rest|
  {
    if rest == [] {
    } else if rest[0] !in d.release {
      assert rest[0] in rest;
      ApplyKeeps(cs, rest[1..], d, cut, t0, r0);
    } else {
      SwitchingKeeps(cs, rest, d, t0, r0);
      var spent := if rest[0] in d.target then 4 else 2;
      if cut >= spent {
        ApplyKeeps(cs, rest[1..], Switched(d, rest[0]), cut - spent, t0, r0);
      }
    }
  }

  /** Four steps for each component are always enough to finish. */
  lemma {:induction false} ApplyEnds(rest: seq<Component>, d: Disk, cut: nat)
    requires cut >= 4 * |rest|
    ensures ApplyFrom(rest, d, cut).done
    decreases |rest|
  {
    if rest != [] {
      if rest[0] !in d.release {
        ApplyEnds(rest[1..], d, cut);
      } else {
        var spent := if rest[0] in d.target then 4 else 2;
        ApplyEnds(rest[1..], Switched(d, rest[0]), cut - spent);
      }
    }
  }

  lemma SameFolder(m: Folder, m': Folder)
    requires forall c: Component :: At(m, c) == At(m', c)
    ensures m == m'
  {
    assert forall c: Component :: c in m <==> At(m, c).Some?;
    assert forall c: Component :: c in m' <==> At(m', c).Some?;
    assert m.Keys == m'.Keys;
    assert forall c | c in m :: At(m, c) == Some(m[c]);
    assert forall c | c in m' :: At(m', c) == Some(m'[c]);
  }

  lemma SwitchedFolders(cs: seq<Component>, d: Disk, t0: Folder, r0: Folder)
    requires Midway(cs, [], d, t0, r0)
    ensures d.target == t0 + (map c | c in cs && c in r0 :: r0[c])
    ensures d.release == r0 - (set c | c in cs)
    ensures d.backup == (map c | c in cs && c in r0 && c in t0 :: t0[c])
  {
    forall c: Component
      ensures At(d.target, c) == At(t0 + (map c | c in cs && c in r0 :: r0[c]), c)
      ensures At(d.release, c) == At(r0 - (set c | c in cs), c)
      ensures At(d.backup, c) == At(map c | c in cs && c in r0 && c in t0 :: t0[c], c)
    {
      assert Placed(d, c, t0, r0);
      assert c in cs && c in r0 ==> In(d, c, t0, r0);
    }
    SameFolder(d.target, t0 + (map c | c in cs && c in r0 :: r0[c]));
    SameFolder(d.release, r0 - (set c | c in cs));
    SameFolder(d.backup, map c | c in cs && c in r0 && c in t0 :: t0[c]);
  }

  /** A completed `apply` leaves exactly: the release's components in the target and nowhere
      else, the files they replaced in the backup, and every other file where it was. */
  lemma CompletedApply(cs: seq<Component>, t0: Folder, r0: Folder, cut: nat)
    requires Distinct(cs)
    ensures var a := ApplyFrom(cs, Clean(t0, r0), cut);
            a.done ==>
              && a.disk.target == t0 + (map c | c in cs && c in r0 :: r0[c])
              && a.disk.release == r0 - (set c | c in cs)
              && a.disk.backup == (map c | c in cs && c in r0 && c in t0 :: t0[c])
              && a.disk.destroyed == 0
    ensures cut >= 4 * |cs| ==> ApplyFrom(cs, Clean(t0, r0), cut).done
  {
    var d := Clean(t0, r0);
    CleanIsRecoverable(cs, t0, r0);
    ApplyKeeps(cs, cs, d, cut, t0, r0);
    if cut >= 4 * |cs| {
      ApplyEnds(cs, d, cut);
    }
    var a := ApplyFrom(cs, d, cut);
    if a.done {
      SwitchedFolders(cs, a.disk, t0, r0);
    }
  }

  // ---------------------------------------------------------------- rollback

  lemma CleanIsRecoverable(cs: seq<Component>, t0: Folder, r0: Folder)
    ensures Recoverable(cs, Clean(t0, r0), t0, r0)
    ensures forall c: Component :: Home(Clean(t0, r0), c, t0, r0)
  {
  }

  lemma QuarantiningKeeps(cs: seq<Component>, d: Disk, c: Component, t0: Folder, r0: Folder)
    requires Recoverable(cs, d, t0, r0) && c in d.journal.installed
    requires c in d.target && !(c in d.journal.moved && c !in d.backup)
    ensures c !in d.release
    ensures Recoverable(cs, Quarantine(d, c), t0, r0) && !In(Quarantine(d, c), c, t0, r0)
    ensures forall x: Component | !In(d, x, t0, r0) :: !In(Quarantine(d, c), x, t0, r0)
  {
    assert Placed(d, c, t0, r0);
    forall x: Component
      ensures Placed(Quarantine(d, c), x, t0, r0)
    {
      assert Placed(d, x, t0, r0);
    }
  }

  /** No component of `list` is left installed, and none has become so. */
  ghost predicate TakenBack(d: Disk, list: seq<Component>, d': Disk, t0: Folder, r0: Folder) {
    && (forall c | c in list :: !In(d', c, t0, r0))
    && (forall c: Component | !In(d, c, t0, r0) :: !In(d', c, t0, r0))
  }

  lemma TakenBackToo(d: Disk, d1: Disk, list: seq<Component>, c: Component, d': Disk, t0: Folder, r0: Folder)
    requires TakenBack(d1, list, d', t0, r0) && !In(d1, c, t0, r0)
    requires forall x: Component | !In(d, x, t0, r0) :: !In(d1, x, t0, r0)
    ensures TakenBack(d, list + [c], d', t0, r0)
  {
  }

  /** The first loop takes every installed file back; it never needs the deleting branch. */
  lemma {:induction false} UninstallKeeps(cs: seq<Component>, list: seq<Component>, d: Disk, cut: nat, t0: Folder, r0: Folder)
    requires Recoverable(cs, d, t0, r0)
    requires forall c | c in list :: c in d.journal.installed
    ensures var u := UninstallFrom(list, d.journal.moved, d, cut);
            && Recoverable(cs, u.disk, t0, r0) && u.disk.journal == d.journal
            && (u.done ==> TakenBack(d, list, u.disk, t0, r0))
            && (cut >= |list| ==> u.done && u.left >= cut - |list|)
    decreases |list|
  {
    if list != [] {
      var c, rest := list[|list| - 1], list[..|list| - 1];
      assert list == rest + [c];
      assert Placed(d, c, t0, r0);
      var d1, left := d, cut;
      if c !in d.target || (c in d.journal.moved && c !in d.backup) {
        assert !In(d, c, t0, r0);
      } else {
        QuarantiningKeeps(cs, d, c, t0, r0);
        if cut == 0 {
          return;
        }
        d1, left := Quarantine(d, c), cut - 1;
      }
      UninstallKeeps(cs, rest, d1, left, t0, r0);
      var u := UninstallFrom(rest, d.journal.moved, d1, left);
      assert UninstallFrom(list, d.journal.moved, d, cut) == u;
      if u.done {
        TakenBackToo(d, d1, rest, c, u.disk, t0, r0);
      }
    }
  }

  lemma RestoringKeeps(cs: seq<Component>, d: Disk, c: Component, t0: Folder, r0: Folder)
    requires Recoverable(cs, d, t0, r0) && c in d.backup && !In(d, c, t0, r0)
    ensures Recoverable(cs, Restore(d, c), t0, r0) && Home(Restore(d, c), c, t0, r0)
  {
    assert Placed(d, c, t0, r0);
    forall x: Component
      ensures Placed(Restore(d, c), x, t0, r0)
    {
      assert Placed(d, x, t0, r0);
    }
  }

  lemma {:induction false} RestoreKeeps(cs: seq<Component>, list: seq<Component>, d: Disk, cut: nat, t0: Folder, r0: Folder)
    requires Recoverable(cs, d, t0, r0)
    requires forall c: Component :: !In(d, c, t0, r0)
    ensures var r := RestoreFrom(list, d, cut);
            && Recoverable(cs, r.disk, t0, r0) && r.disk.journal == d.journal
            && (forall c: Component :: !In(r.disk, c, t0, r0))
            && (forall c: Component | Home(d, c, t0, r0) :: Home(r.disk, c, t0, r0))
            && (r.done ==> forall c | c in list :: Home(r.disk, c, t0, r0))
            && (cut >= |list| ==> r.done && r.left >= cut - |list|)
    decreases |list|
  {
    if list != [] {
      var c, rest := list[|list| - 1], list[..|list| - 1];
      assert list == rest + [c];
      assert Placed(d, c, t0, r0);
      if c !in d.backup {
        RestoreKeeps(cs, rest, d, cut, t0, r0);
      } else if cut > 0 {
        RestoringKeeps(cs, d, c, t0, r0);
        forall x: Component
          ensures !In(Restore(d, c), x, t0, r0)
        {
          assert !In(d, x, t0, r0);
        }
        RestoreKeeps(cs, rest, Restore(d, c), cut - 1, t0, r0);
      }
    }
  }

  lemma AllHomeIsClean(d: Disk, t0: Folder, r0: Folder)
    requires forall c: Component :: Home(d, c, t0, r0)
    requires d.journal == EMPTY && d.destroyed == 0
    ensures d == Clean(t0, r0)
  {
    forall c: Component
      ensures At(d.target, c) == At(t0, c) && At(d.release, c) == At(r0, c) && At(d.backup, c) == None
    {
      assert Home(d, c, t0, r0);
    }
    SameFolder(d.target, t0);
    SameFolder(d.release, r0);
    SameFolder(d.backup, map[]);
  }

  /** Rollback from any recoverable disk: recoverable at every cut, and the original disk
      when it runs to its end, which one step per journal entry and one more always allow. */
  lemma RollbackRestores(cs: seq<Component>, d: Disk, cut: nat, t0: Folder, r0: Folder)
    requires Recoverable(cs, d, t0, r0)
    ensures var r := RollbackFrom(cs, d, cut);
            && Recoverable(cs, r.disk, t0, r0)
            && (r.done ==> r.disk == Clean(t0, r0))
            && (cut > |d.journal.installed| + |d.journal.moved| ==> r.done)
  {
    UninstallKeeps(cs, d.journal.installed, d, cut, t0, r0);
    var u := UninstallFrom(d.journal.installed, d.journal.moved, d, cut);
    if u.done {
      forall c: Component
        ensures !In(u.disk, c, t0, r0)
      {
        if c !in d.journal.installed {
          assert !In(d, c, t0, r0);
        }
      }
      RestoreKeeps(cs, d.journal.moved, u.disk, u.left, t0, r0);
      var r := RestoreFrom(d.journal.moved, u.disk, u.left);
      if r.done && r.left > 0 {
        forall c: Component
          ensures Home(Write(r.disk, EMPTY), c, t0, r0)
        {
          assert Placed(r.disk, c, t0, r0);
        }
        AllHomeIsClean(Write(r.disk, EMPTY), t0, r0);
        CleanIsRecoverable(cs, t0, r0);
      }
    }
  }

  // ---------------------------------------------------------------- whole runs

  lemma EmptyJournalIsClean(cs: seq<Component>, d: Disk, t0: Folder, r0: Folder)
    requires Recoverable(cs, d, t0, r0) && d.journal == EMPTY
    ensures d == Clean(t0, r0)
  {
    forall c: Component
      ensures Home(d, c, t0, r0)
    {
      assert Placed(d, c, t0, r0);
    }
    AllHomeIsClean(d, t0, r0);
  }

  lemma CallKeeps(cs: seq<Component>, d: Disk, cmd: Command, t0: Folder, r0: Folder)
    requires Distinct(cs) && Recoverable(cs, d, t0, r0)
    ensures Recoverable(cs, Call(cs, d, cmd).disk, t0, r0)
    ensures !cmd.Rollback? && d.journal != EMPTY ==> Call(cs, d, cmd).disk == d
  {
    if cmd.Rollback? {
      RollbackRestores(cs, d, cmd.cut, t0, r0);
    } else if d.journal == EMPTY {
      EmptyJournalIsClean(cs, d, t0, r0);
      CleanIsRecoverable(cs, t0, r0);
      ApplyKeeps(cs, cs, d, cmd.cut, t0, r0);
      if cmd.ApplyRaising? {
        RollbackRestores(cs, ApplyFrom(cs, d, cmd.cut).disk, cmd.recoveryCut, t0, r0);
      }
    }
  }

  /** Safety over whole runs: every state reachable from a prepared stage by any sequence of
      `apply` and `rollback` calls, each cut anywhere, is recoverable. */
  lemma {:induction false} RunsStayRecoverable(cs: seq<Component>, t0: Folder, r0: Folder, cmds: seq<Command>)
    requires Distinct(cs)
    ensures Recoverable(cs, Run(cs, Clean(t0, r0), cmds), t0, r0)
    decreases |cmds|
  {
    if cmds == [] {
      CleanIsRecoverable(cs, t0, r0);
    } else {
      var front := cmds[..|cmds| - 1];
      RunsStayRecoverable(cs, t0, r0, front);
      CallKeeps(cs, Run(cs, Clean(t0, r0), front), cmds[|cmds| - 1], t0, r0);
    }
  }

  /** Whatever happened before, one rollback that is not cut gives back the installation, the
      staged release, an empty backup and an empty journal, so that `apply` may run again.  One
      step for each journal entry and one more are enough. */
  lemma RollbackUndoesAnyRun(cs: seq<Component>, t0: Folder, r0: Folder, cmds: seq<Command>, cut: nat)
    requires Distinct(cs)
    ensures var d := Run(cs, Clean(t0, r0), cmds);
            var r := RollbackFrom(cs, d, cut);
            && (r.done ==> Run(cs, Clean(t0, r0), cmds + [Rollback(cut)]) == Clean(t0, r0))
            && (cut > |d.journal.installed| + |d.journal.moved| ==> r.done)
  {
    RunsStayRecoverable(cs, t0, r0, cmds);
    RollbackRestores(cs, Run(cs, Clean(t0, r0), cmds), cut, t0, r0);
    assert (cmds + [Rollback(cut)])[..|cmds|] == cmds;
  }

  lemma SwitchingLogs(d: Disk, c: Component, cut: nat)
    requires c in d.release
    ensures var j := SwitchOne(d, c, cut).disk.journal;
            |j.moved| <= |d.journal.moved| + 1 && |j.installed| <= |d.journal.installed| + 1
  {
  }

  /** Each component is logged at most once in either list. */
  lemma {:induction false} ApplyLogs(cs: seq<Component>, d: Disk, cut: nat)
    ensures var j := ApplyFrom(cs, d, cut).disk.journal;
            |j.moved| <= |d.journal.moved| + |cs| && |j.installed| <= |d.journal.installed| + |cs|
    decreases |cs|
  {
    if cs != [] {
      if cs[0] !in d.release {
        ApplyLogs(cs[1..], d, cut);
      } else {
        SwitchingLogs(d, cs[0], cut);
        var o := SwitchOne(d, cs[0], cut);
        if o.done {
          ApplyLogs(cs[1..], o.disk, o.left);
        }
      }
    }
  }

  /** An `apply` that raises at any step, and whose own recovery is not cut, leaves the disk as it
      found it: with an empty journal that is the installation and the whole release. */
  lemma FailedApplyIsUndone(cs: seq<Component>, d: Disk, cut: nat, recoveryCut: nat, t0: Folder, r0: Folder)
    requires Distinct(cs) && Recoverable(cs, d, t0, r0) && recoveryCut > 2 * |cs|
    ensures var o := Call(cs, d, ApplyRaising(cut, recoveryCut));
            !o.done ==> o.disk == d && (d.journal == EMPTY ==> o.disk.target == t0 && o.disk.release == r0)
  {
    if d.journal == EMPTY {
      EmptyJournalIsClean(cs, d, t0, r0);
      ApplyKeeps(cs, cs, d, cut, t0, r0);
      ApplyLogs(cs, d, cut);
      RollbackRestores(cs, ApplyFrom(cs, d, cut).disk, recoveryCut, t0, r0);
    }
  }

  /** Over runs: such an `apply` after any calls changes nothing, wherever they were cut. */
  lemma FailedApplyIsUndoneInRuns(cs: seq<Component>, t0: Folder, r0: Folder, cmds: seq<Command>, cut: nat, recoveryCut: nat)
    requires Distinct(cs) && recoveryCut > 2 * |cs|
    ensures var d := Run(cs, Clean(t0, r0), cmds);
            !Call(cs, d, ApplyRaising(cut, recoveryCut)).done ==>
              Run(cs, Clean(t0, r0), cmds + [ApplyRaising(cut, recoveryCut)]) == d
  {
    RunsStayRecoverable(cs, t0, r0, cmds);
    FailedApplyIsUndone(cs, Run(cs, Clean(t0, r0), cmds), cut, recoveryCut, t0, r0);
    assert (cmds + [ApplyRaising(cut, recoveryCut)])[..|cmds|] == cmds;
  }

  /** An `apply` that ends, ran on a clean stage and has switched every component of the release. */
  lemma FinishedApply(cs: seq<Component>, d: Disk, cmd: Command, t0: Folder, r0: Folder)
    requires Distinct(cs) && Recoverable(cs, d, t0, r0) && !cmd.Rollback? && Call(cs, d, cmd).done
    ensures var o := Call(cs, d, cmd);
            && d == Clean(t0, r0)
            && o.disk.target == t0 + (map c | c in cs && c in r0 :: r0[c])
            && o.disk.release == r0 - (set c | c in cs)
            && o.disk.backup == (map c | c in cs && c in r0 && c in t0 :: t0[c])
  {
    EmptyJournalIsClean(cs, d, t0, r0);
    CompletedApply(cs, t0, r0, cmd.cut);
  }

  /** The components a release is made of, in the order in which `apply` switches them. */
  const COMPONENTS: seq<Component> :=
    ["src", "scripts", "docs", "config.py", "runtime_requirements.py", "meshcore_bridge.py", "requirements.txt",
     "requirements-web.txt", "requirements-core.txt", "requirements-mqtt.txt", "pyproject.toml",
     "meshcore-bridge.service", ".env.example", "run_interactive_demo.py", "install.sh", "install.ps1", "venv",
     "README.md", "CONTEXT.md", "AGENTS.md"]

  /** The repository's own list meets the one condition the theorems put on it. */
  lemma ComponentsAreDistinct()
    ensures Distinct(COMPONENTS)
  {
    // names of equal length differ at these places
    assert "docs"[0] != "venv"[0];
    assert "config.py"[0] != "README.md"[0] && "config.py"[0] != "AGENTS.md"[0] && "README.md"[0] != "AGENTS.md"[0];
    assert "runtime_requirements.py"[3] != "run_interactive_demo.py"[3];
    assert "runtime_requirements.py"[0] == "run_interactive_demo.py"[0] != "meshcore-bridge.service"[0];
    assert "requirements-core.txt"[13] != "requirements-mqtt.txt"[13];
    assert "install.sh"[0] != "CONTEXT.md"[0];
  }

  /** What a call of `apply` comes to on a recoverable disk, in one place. */
  lemma ApplyMeans(cs: seq<Component>, d: Disk, cmd: Command, t0: Folder, r0: Folder)
    requires !cmd.Rollback?
    ensures var o := Call(cs, d, cmd);
            Distinct(cs) && Recoverable(cs, d, t0, r0) ==>
              && Recoverable(cs, o.disk, t0, r0)
              && (o.done ==>
                    && d.target == t0 && d.release == r0
                    && o.disk.target == t0 + (map c | c in cs && c in r0 :: r0[c])
                    && o.disk.release == r0 - (set c | c in cs)
                    && o.disk.backup == (map c | c in cs && c in r0 && c in t0 :: t0[c]))
              && (cmd.ApplyRaising? && !o.done && cmd.recoveryCut > 2 * |cs| ==> o.disk == d)
              && (d.journal == EMPTY && cmd.cut >= 4 * |cs| ==> o.done)
              && (d.journal != EMPTY ==> !o.done && o.disk == d)
  {
    if Distinct(cs) && Recoverable(cs, d, t0, r0) {
      CallKeeps(cs, d, cmd, t0, r0);
      if cmd.cut >= 4 * |cs| {
        ApplyEnds(cs, d, cmd.cut);
      }
      if Call(cs, d, cmd).done {
        FinishedApply(cs, d, cmd, t0, r0);
      } else if cmd.ApplyRaising? && cmd.recoveryCut > 2 * |cs| {
        FailedApplyIsUndone(cs, d, cmd.cut, cmd.recoveryCut, t0, r0);
      }
    }
  }

  // ---------------------------------------------------------------- the program

  class Stage {
    const components: seq<Component>
    var target: Folder
    var release: Folder
    var backup: Folder
    var journal: Journal
    ghost var destroyed: nat

    ghost function View(): Disk
      reads this
    {
      Disk(target, release, backup, journal, destroyed)
    }

    /** The stage as `prepare` leaves it. */
    constructor (components: seq<Component>, installation: Folder, source: Folder)
      ensures this.components == components
      ensures View() == Clean(installation, map c | c in components && c != "venv" && c in source :: source[c])
    {
      this.components := components;
      target := installation;
      release := map c | c in components && c != "venv" && c in source :: source[c];
      backup := map[];
      journal := EMPTY;
      destroyed := 0;
    }

    /** One turn of the loop of `apply`: journal, move out, journal, install. */
    method SwitchComponent(c: Component, cut: nat) returns (done: bool, left: nat)
      requires c in release
      modifies this
      ensures Outcome(View(), done, left) == SwitchOne(old(View()), c, cut)
    {
      left := cut;
      if c in target {
        if left == 0 { return false, 0; }
        journal := Journal(journal.moved + [c], journal.installed);
        if left == 1 { return false, 0; }
        destroyed := destroyed + Wiped(backup, c);
        backup, target := backup[c := target[c]], target - {c};
        left := left - 2;
      }
      if left == 0 { return false, 0; }
      journal := Journal(journal.moved, journal.installed + [c]);
      if left == 1 { return false, 0; }
      destroyed := destroyed + Wiped(target, c);
      target, release := target[c := release[c]], release - {c};
      return true, left - 2;
    }

    /** The body of the `try` in `apply`. */
    method Switch(cut: nat) returns (done: bool, left: nat)
      modifies this
      ensures Outcome(View(), done, left) == ApplyFrom(components, old(View()), cut)
    {
      left := cut;
      var i := 0;
      while i < |components|
        invariant 0 <= i <= |components|
        invariant ApplyFrom(components[i..], View(), left) == ApplyFrom(components, old(View()), cut)
      {
        var c := components[i];
        assert components[i..][1..] == components[i + 1..];
        if c in release {
          done, left := SwitchComponent(c, left);
          if !done { return; }
        }
        i := i + 1;
      }
      done := true;
    }

    /** `t0` and `r0` are the installation and the release that the stage was prepared with. */
    method Apply(cut: nat, raises: bool, recoveryCut: nat, ghost t0: Folder, ghost r0: Folder) returns (done: bool)
      modifies this
      ensures var cmd := if raises then Command.ApplyRaising(cut, recoveryCut) else Command.Apply(cut);
              var o := Call(components, old(View()), cmd);
              View() == o.disk && done == o.done
      ensures Distinct(components) && Recoverable(components, old(View()), t0, r0) ==>
                && Recoverable(components, View(), t0, r0)
                && (old(journal) == EMPTY && cut >= 4 * |components| ==> done)
                && (old(journal) != EMPTY ==> !done && View() == old(View()))
      ensures Distinct(components) && Recoverable(components, old(View()), t0, r0) && done ==>
                && old(target) == t0 && old(release) == r0
                && target == t0 + (map c | c in components && c in r0 :: r0[c])
                && release == r0 - (set c | c in components)
                && backup == (map c | c in components && c in r0 && c in t0 :: t0[c])
      ensures Distinct(components) && Recoverable(components, old(View()), t0, r0)
              && raises && !done && recoveryCut > 2 * |components| ==>
                target == old(target) && release == old(release) && backup == old(backup) && journal == old(journal)
    {
      ghost var cmd := if raises then Command.ApplyRaising(cut, recoveryCut) else Command.Apply(cut);
      ApplyMeans(components, View(), cmd, t0, r0);
      if !Readable(components, journal) || journal != EMPTY {
        return false;
      }
      var left;
      done, left := Switch(cut);
      if !done && raises {
        var _, _ := Rollback(recoveryCut, t0, r0);
      }
    }

    /** One turn of the first loop of `rollback`: delete what is in the way, then take back. */
    method UninstallComponent(c: Component, cut: nat) returns (done: bool, left: nat)
      requires c in target
      modifies this`target, this`release, this`destroyed
      ensures Outcome(View(), done, left) == UninstallOne(old(View()), c, cut)
    {
      left := cut;
      if c in release {
        if left == 0 { return false, 0; }
        destroyed := destroyed + Wiped(release, c);
        release := release - {c};
        left := left - 1;
      }
      if left == 0 { return false, 0; }
      destroyed := destroyed + Wiped(release, c);
      release, target := release[c := target[c]], target - {c};
      return true, left - 1;
    }

    /** The first loop of `rollback`. */
    method Uninstall(state: Journal, cut: nat) returns (done: bool, left: nat)
      modifies this`target, this`release, this`destroyed
      ensures Outcome(View(), done, left) == UninstallFrom(state.installed, state.moved, old(View()), cut)
    {
      left := cut;
      var i := |state.installed|;
      assert state.installed[..i] == state.installed;
      while i > 0
        invariant 0 <= i <= |state.installed|
        invariant UninstallFrom(state.installed[..i], state.moved, View(), left)
               == UninstallFrom(state.installed, state.moved, old(View()), cut)
      {
        i := i - 1;
        var c := state.installed[i];
        assert state.installed[..i + 1][..i] == state.installed[..i];
        if c in target && !(c in state.moved && c !in backup) {
          done, left := UninstallComponent(c, left);
          if !done { return; }
        }
      }
      done := true;
    }

    /** The second loop of `rollback`. */
    method RestoreAll(state: Journal, cut: nat) returns (done: bool, left: nat)
      modifies this`target, this`backup, this`destroyed
      ensures Outcome(View(), done, left) == RestoreFrom(state.moved, old(View()), cut)
    {
      left := cut;
      var i := |state.moved|;
      assert state.moved[..i] == state.moved;
      while i > 0
        invariant 0 <= i <= |state.moved|
        invariant RestoreFrom(state.moved[..i], View(), left) == RestoreFrom(state.moved, old(View()), cut)
      {
        i := i - 1;
        var c := state.moved[i];
        assert state.moved[..i + 1][..i] == state.moved[..i];
        if c in backup {
          if left == 0 { return false, 0; }
          destroyed := destroyed + Wiped(target, c);
          target, backup := target[c := backup[c]], backup - {c};
          left := left - 1;
        }
      }
      done := true;
    }

    method Rollback(cut: nat, ghost t0: Folder, ghost r0: Folder) returns (done: bool, left: nat)
      modifies this
      ensures Outcome(View(), done, left) == RollbackFrom(components, old(View()), cut)
      ensures Recoverable(components, old(View()), t0, r0) ==>
                && Recoverable(components, View(), t0, r0)
                && (done ==> target == t0 && release == r0 && backup == map[] && journal == EMPTY)
                && (cut > |old(journal).installed| + |old(journal).moved| ==> done)
    {
      if !Readable(components, journal) {
        return false, cut;
      }
      if Recoverable(components, View(), t0, r0) {
        RollbackRestores(components, View(), cut, t0, r0);
      }
      done, left := Uninstall(journal, cut);
      if !done { return; }
      done, left := RestoreAll(journal, left);
      if !done { return; }
      if left == 0 { return false, 0; }
      journal := EMPTY;
      left := left - 1;
    }
  }
}
