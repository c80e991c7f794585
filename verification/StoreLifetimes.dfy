/** The definition store over daemons' lifetimes: operations that succeed, fail or
    are refused, crashes at any point of one, and opening the store again. */
module StoreLifetimes {
  import opened Wrappers
  import opened Definitions
  import opened Store
  import opened StoreProofs

  // ---------------------------------------------------------------- Lifetimes

  /** What happens: an operation, of which so many filesystem calls succeed; a crash
      once so many have; or a stop between operations. After the last two the store
      is opened again, all staging directories but those stuck being removed. */
  datatype Happening =
    | Called(op: Op, done: nat)
    | Crashed(op: Op, done: nat, stuck: set<string>)
    | Restarted(stuck: set<string>)

  function SweptDisk(d: Disk, stuck: set<string>): Disk {
    d.(instances := Swept(d.instances, stuck), snapshots := Swept(d.snapshots, stuck))
  }

  ghost predicate Opened(d: Disk, stuck: set<string>, t: State) {
    LoadsAs(d, t.memory) && t.disk == SweptDisk(d, stuck)
  }

  ghost predicate Happens(s: State, h: Happening, t: State) {
    && Indexed(s.memory)
    && match h
       case Called(op, done) => Allowed(s.memory, s.disk, op) && t == Attempt(s, op, done).0
       case Crashed(op, done, stuck) =>
         && Allowed(s.memory, s.disk, op)
         && var p := PlanOf(s.memory, s.disk, op);
            !p.Refuse? && done < |p.disks| && Opened(p.disks[done], stuck, t)
       case Restarted(stuck) => Opened(s.disk, stuck, t)
  }

  ghost predicate IsLife(states: seq<State>, life: seq<Happening>) {
    && |states| == |life| + 1
    && forall i :: 0 <= i < |life| ==> Happens(states[i], life[i], states[i + 1])
  }

  // ---------------------------------------------------------------- Files behind memory

  /** The files lack nothing but what something that stopped halfway lost: what
      loads is in memory, and so is whatever is under a name in memory. */
  predicate Behind<B(==)>(a: Area<B>, dirs: bool, t: Table<B>) {
    && (forall n :: n in a && Loads(a, dirs, n) ==> n in t.byName)
    && (forall n :: n in a && a[n].Some? && n in t.byName ==> a[n].value == t.byName[n])
  }

  /** Instances and snapshots may be behind; the rest never is. */
  ghost predicate Within(d: Disk, m: Memory) {
    && Behind(d.instances, true, m.instances) && Behind(d.snapshots, true, m.snapshots)
    && Holds(d.resources.kernels, false, m.resources.kernels)
    && Holds(d.resources.networks, false, m.resources.networks)
    && Holds(d.resources.volumes, false, m.resources.volumes)
  }

  lemma HoldsIsBehind<B>(a: Area<B>, dirs: bool, t: Table<B>)
    requires Holds(a, dirs, t)
    ensures Behind(a, dirs, t)
  {
    forall n | n in a && Loads(a, dirs, n)
      ensures n in t.byName
    {
      assert n in Loadable(a, dirs);
    }
    forall n | n in a && a[n].Some? && n in t.byName
      ensures a[n].value == t.byName[n]
    {
      assert n in Loadable(a, dirs);
    }
  }

  lemma SyncedIsWithin(d: Disk, m: Memory)
    requires Synced(d, m)
    ensures Within(d, m)
  {
    hide Holds, Behind;
    HoldsIsBehind(d.instances, true, m.instances);
    HoldsIsBehind(d.snapshots, true, m.snapshots);
  }

  // ---------------------------------------------------------------- One area

  lemma WriteBehind<B>(a: Area<B>, dirs: bool, t: Table<B>, v: Named<B>)
    requires Behind(a, dirs, t)
    ensures Behind(a[v.name := Some(v)], dirs, Put(t, v))
  {
  }

  lemma BlankBehind<B>(a: Area<B>, dirs: bool, t: Table<B>, n: string)
    requires Behind(a, dirs, t)
    ensures Behind(a[n := None], dirs, t) && Behind(Emptied(a, n), dirs, t)
  {
  }

  lemma RemoveBehind<B>(a: Area<B>, dirs: bool, t: Table<B>, v: Named<B>)
    requires Behind(a, dirs, t)
    ensures Behind(a - {v.name}, dirs, Drop(t, v))
  {
  }

  /** What moves is the definition in memory, or nothing, so it does not load under
      its new name until it is rewritten. */
  lemma MoveBehind<B>(a: Area<B>, t: Table<B>, current: Named<B>, v: Named<B>)
    requires WellIndexed(t) && Behind(a, true, t) && current.name in t.byName && t.byName[current.name] == current
    requires v.name !in t.byName && CanMove(a, current.name, v.name)
    ensures Behind(Moved(a, current.name, v.name), true, t)
    ensures Behind(Moved(a, current.name, v.name)[v.name := Some(v)], true, Move(t, current, v))
  {
    var moved := Moved(a, current.name, v.name);
    assert a[current.name].Some? ==> a[current.name].value.name != v.name;
    assert forall n :: n in moved && n != v.name ==> n in a && n != current.name && moved[n] == a[n];
  }

  lemma StagingBehind<B>(a: Area<B>, t: Table<B>, dir: string, entry: Option<Named<B>>)
    requires Behind(a, true, t) && IsStaging(dir) && dir !in t.byName
    ensures Behind(a[dir := entry], true, t)
  {
  }

  lemma PlaceBehind<B>(a: Area<B>, t: Table<B>, staged: string, v: Named<B>)
    requires Behind(a, true, t) && staged in a && v.name != staged
    ensures Behind(Moved(a[staged := Some(v)], staged, v.name), true, Put(t, v))
  {
    var placed := Moved(a[staged := Some(v)], staged, v.name);
    assert forall n :: n in placed && n != v.name ==> n in a && n != staged && placed[n] == a[n];
  }

  // ---------------------------------------------------------------- One operation

  /** No snapshot in memory has the name of a staging directory. */
  predicate Unstaged(m: Memory) {
    forall n :: n in m.snapshots.byName ==> !IsStaging(n)
  }

  /** The disk after so many filesystem calls lacks nothing more than halfway loses:
      of memory as it will be once the last is done, and as it was until then. */
  ghost predicate PlanWithin(p: Plan, m: Memory, k: nat)
    requires !p.Refuse? && k < |p.disks|
  {
    Within(p.disks[k], if p.Steps? && k == |p.disks| - 1 then p.memory else m)
  }

  lemma CreateInstanceWithin(m: Memory, d: Disk, v: Spec, k: nat)
    requires Indexed(m) && Within(d, m)
    requires var p := PlanCreateInstance(m, d, v); !p.Refuse? && k < |p.disks|
    ensures PlanWithin(PlanCreateInstance(m, d, v), m, k)
  {
    hide Behind, Holds, Resolves, ValidName;
    BlankBehind(d.instances, true, m.instances, v.name);
    WriteBehind(d.instances, true, m.instances, v);
  }

  lemma UpdateInstanceWithin(m: Memory, d: Disk, v: Spec, k: nat)
    requires Indexed(m) && Within(d, m)
    requires var p := PlanUpdateInstance(m, d, v); !p.Refuse? && k < |p.disks|
    ensures PlanWithin(PlanUpdateInstance(m, d, v), m, k)
  {
    hide Behind, Holds, Resolves;
    WriteBehind(d.instances, true, m.instances, v);
  }

  lemma RenameInstanceWithin(m: Memory, d: Disk, key: string, v: Spec, k: nat)
    requires Indexed(m) && Within(d, m)
    requires var p := PlanRenameInstance(m, d, key, v); !p.Refuse? && k < |p.disks|
    ensures PlanWithin(PlanRenameInstance(m, d, key, v), m, k)
  {
    hide Behind, Holds, Resolves, ValidName, Move, Moved;
    var current := Find(m.instances, key).value;
    if PlanRenameInstance(m, d, key, v).Steps? && v.name != current.name {
      MoveBehind(d.instances, m.instances, current, v);
    }
  }

  lemma DeleteInstanceWithin(m: Memory, d: Disk, key: string, k: nat)
    requires Indexed(m) && Within(d, m)
    requires var p := PlanDeleteInstance(m, d, key); !p.Refuse? && k < |p.disks|
    ensures PlanWithin(PlanDeleteInstance(m, d, key), m, k)
  {
    hide Behind, Holds, Emptied;
    var v := Find(m.instances, key).value;
    BlankBehind(d.instances, true, m.instances, v.name);
    RemoveBehind(d.instances, true, m.instances, v);
  }

  lemma StageSnapshotWithin(m: Memory, d: Disk, dir: string, k: nat)
    requires Unstaged(m) && Within(d, m)
    requires var p := PlanStageSnapshot(m, d, dir); k < |p.disks|
    ensures PlanWithin(PlanStageSnapshot(m, d, dir), m, k)
  {
    hide Behind, Holds;
    if PlanStageSnapshot(m, d, dir).Steps? {
      StagingBehind(d.snapshots, m.snapshots, dir, None);
    }
  }

  lemma CreateSnapshotWithin(m: Memory, d: Disk, v: Snapshot, staged: string, k: nat)
    requires Indexed(m) && Unstaged(m) && Within(d, m) && IsStaging(staged)
    requires var p := PlanCreateSnapshot(m, d, v, staged); !p.Refuse? && k < |p.disks|
    ensures PlanWithin(PlanCreateSnapshot(m, d, v, staged), m, k)
  {
    hide Behind, Holds, Resolves, ValidName, Moved;
    ValidIsNotStaging(v.name);
    if staged in d.snapshots {
      StagingBehind(d.snapshots, m.snapshots, staged, Some(v));
      PlaceBehind(d.snapshots, m.snapshots, staged, v);
    }
  }

  lemma DeleteSnapshotWithin(m: Memory, d: Disk, key: string, k: nat)
    requires Indexed(m) && Within(d, m)
    requires var p := PlanDeleteSnapshot(m, d, key); !p.Refuse? && k < |p.disks|
    ensures PlanWithin(PlanDeleteSnapshot(m, d, key), m, k)
  {
    hide Behind, Holds, Emptied;
    var v := Find(m.snapshots, key).value;
    BlankBehind(d.snapshots, true, m.snapshots, v.name);
    RemoveBehind(d.snapshots, true, m.snapshots, v);
  }

  lemma HeldResource(d: Disk, m: Memory, kind: Kind)
    requires Within(d, m)
    ensures Holds(d.resources.Of(kind), false, m.resources.Of(kind))
  {
    hide Holds;
  }

  lemma WithinWith(d: Disk, m: Memory, kind: Kind, a: Area<string>, t: Table<string>)
    requires Within(d, m) && Holds(a, false, t)
    ensures Within(d.(resources := d.resources.With(kind, a)), m.(resources := m.resources.With(kind, t)))
  {
    hide Holds, Behind;
  }

  lemma PutResourceWithin(m: Memory, d: Disk, kind: Kind, v: Named<string>)
    requires Within(d, m)
    ensures Within(WriteResource(d, kind, v), PutResource(m, kind, v))
  {
    HeldResource(d, m, kind);
    LoadableWrite(d.resources.Of(kind), false, v);
    WithinWith(d, m, kind, d.resources.Of(kind)[v.name := Some(v)], Put(m.resources.Of(kind), v));
  }

  lemma DropResourceWithin(m: Memory, d: Disk, kind: Kind, v: Named<string>)
    requires Within(d, m)
    ensures Within(RemoveResource(d, kind, v.name), DropResource(m, kind, v))
  {
    HeldResource(d, m, kind);
    LoadableRemove(d.resources.Of(kind), false, v.name);
    WithinWith(d, m, kind, d.resources.Of(kind) - {v.name}, Drop(m.resources.Of(kind), v));
  }

  lemma AnyPlanWithin(m: Memory, d: Disk, op: Op, k: nat)
    requires Indexed(m) && Unstaged(m) && Within(d, m) && Allowed(m, d, op)
    requires var p := PlanOf(m, d, op); !p.Refuse? && k < |p.disks|
    ensures PlanWithin(PlanOf(m, d, op), m, k)
  {
    hide Within, Unstaged, Proper, Resolves, ValidName, InUse, WellIndexed;
    hide WriteResource, PutResource, RemoveResource, DropResource;
    match op
    case CreateInstance(v) => CreateInstanceWithin(m, d, v, k);
    case UpdateInstance(v) => UpdateInstanceWithin(m, d, v, k);
    case RenameInstance(key, v) => RenameInstanceWithin(m, d, key, v, k);
    case DeleteInstance(key) => DeleteInstanceWithin(m, d, key, k);
    case StageSnapshot(dir) => StageSnapshotWithin(m, d, dir, k);
    case CreateSnapshot(v, staged) => CreateSnapshotWithin(m, d, v, staged, k);
    case DeleteSnapshot(key) => DeleteSnapshotWithin(m, d, key, k);
    case CreateResource(kind, v) => PutResourceWithin(m, d, kind, v);
    case UpdateKernel(v) => PutResourceWithin(m, d, Kernels, v);
    case DeleteResource(kind, key) => DropResourceWithin(m, d, kind, Find(m.resources.Of(kind), key).value);
  }

  lemma PlanUnstaged(m: Memory, d: Disk, op: Op)
    requires Indexed(m) && Unstaged(m) && PlanOf(m, d, op).Steps?
    ensures Unstaged(PlanOf(m, d, op).memory)
  {
    if op.CreateSnapshot? {
      ValidIsNotStaging(op.snapshot.name);
    }
  }

  // ---------------------------------------------------------------- Opening again

  /** Whatever loads from files behind a table is a part of it, rightly indexed. */
  lemma LoadedPart<B>(a: Area<B>, dirs: bool, t: Table<B>, loaded: Table<B>)
    requires WellIndexed(t) && Behind(a, dirs, t) && Loaded(a, dirs, loaded)
    ensures WellIndexed(loaded)
    ensures forall n :: n in loaded.byName ==> n in t.byName && loaded.byName[n] == t.byName[n]
    ensures forall n :: n in loaded.byName && dirs ==> !IsStaging(n)
  {
    forall n | n in loaded.byName
      ensures n in t.byName && loaded.byName[n] == t.byName[n] && (dirs ==> !IsStaging(n))
    {
      assert Loads(a, dirs, n);
    }
    WellIndexedIsUnique(t);
  }

  /** What is opened is right again, and in step with the files it has left. */
  lemma OpenedIsRight(d: Disk, m: Memory, stuck: set<string>, t: State)
    requires Inv(m) && Within(d, m) && Opened(d, stuck, t)
    ensures Inv(t.memory) && Unstaged(t.memory) && Synced(t.disk, t.memory)
  {
    hide Loadable, Behind, WellIndexed, UniqueIDs, Swept;
    LoadedPart(d.instances, true, m.instances, t.memory.instances);
    LoadedPart(d.snapshots, true, m.snapshots, t.memory.snapshots);
    LoadRestores(d.resources.kernels, false, m.resources.kernels, t.memory.resources.kernels);
    LoadRestores(d.resources.networks, false, m.resources.networks, t.memory.resources.networks);
    LoadRestores(d.resources.volumes, false, m.resources.volumes, t.memory.resources.volumes);
    ReopenedIsSynced(d, t.memory, stuck);
  }

  // ---------------------------------------------------------------- Every life

  ghost predicate LifeInv(s: State) {
    Inv(s.memory) && Unstaged(s.memory) && Within(s.disk, s.memory)
  }

  lemma HappeningKeeps(s: State, h: Happening, t: State)
    requires LifeInv(s) && Happens(s, h, t)
    ensures LifeInv(t)
  {
    hide Inv, Unstaged, Within, Synced, Allowed, Opened;
    match h
    case Called(op, done) =>
      AttemptKeeps(s, op, done);
      CalledWithin(s, op, done);
    case Crashed(op, done, stuck) =>
      var p := PlanOf(s.memory, s.disk, op);
      AnyPlanWithin(s.memory, s.disk, op, done);
      PlanInv(s.memory, s.disk, op);
      OpenedIsRight(p.disks[done], if p.Steps? && done == |p.disks| - 1 then p.memory else s.memory, stuck, t);
      SyncedIsWithin(t.disk, t.memory);
    case Restarted(stuck) =>
      OpenedIsRight(s.disk, s.memory, stuck, t);
      SyncedIsWithin(t.disk, t.memory);
  }

  lemma PlanInv(m: Memory, d: Disk, op: Op)
    requires Inv(m) && Allowed(m, d, op)
    ensures PlanOf(m, d, op).Steps? ==> Inv(PlanOf(m, d, op).memory)
  {
    hide Integrity, Indexed;
    if PlanOf(m, d, op).Steps? {
      PlanKeeps(m, d, op);
    }
  }

  lemma CalledWithin(s: State, op: Op, done: nat)
    requires LifeInv(s) && Allowed(s.memory, s.disk, op)
    ensures var t := Attempt(s, op, done).0; Unstaged(t.memory) && Within(t.disk, t.memory)
  {
    hide Integrity, Unstaged, Within, Allowed;
    var p := PlanOf(s.memory, s.disk, op);
    if !p.Refuse? {
      AnyPlanWithin(s.memory, s.disk, op, if done < |p.disks| then done else |p.disks| - 1);
    }
    if p.Steps? {
      PlanUnstaged(s.memory, s.disk, op);
    }
  }

  /** Over every life of the store, whatever fails and whenever it crashes, stored
      instances and snapshots name only what is there, every ID leads to the one
      definition with it, and the files lack at most instances and snapshots that
      something stopped halfway lost. */
  lemma {:induction false} LifeKeeps(states: seq<State>, life: seq<Happening>, i: nat)
    requires IsLife(states, life) && LifeInv(states[0]) && i < |states|
    ensures LifeInv(states[i])
    decreases i
  {
    hide LifeInv, Happens;
    if i > 0 {
      LifeKeeps(states, life, i - 1);
      HappeningKeeps(states[i - 1], life[i - 1], states[i]);
    }
  }

  // ---------------------------------------------------------------- Durable lives

  /** Whether nothing stopped halfway: no call did, and no rename crashed between
      its move and its rewrite. */
  ghost predicate Smooth(s: State, h: Happening)
    requires Indexed(s.memory)
  {
    match h
    case Called(op, done) => !Halfway(s.memory, s.disk, op, done)
    case Crashed(op, done, _) => !(op.RenameInstance? && done == 1)
    case Restarted(_) => true
  }

  /** Nothing was lost: memory is as the operation leaves it, or after a crash as it
      was before the operation or would have been after it. */
  ghost predicate NothingLost(s: State, h: Happening, t: State)
    requires Indexed(s.memory)
  {
    match h
    case Called(op, done) => t == Attempt(s, op, done).0
    case Crashed(op, done, _) =>
      var p := PlanOf(s.memory, s.disk, op);
      t.memory == s.memory || (p.Steps? && t.memory == p.memory)
    case Restarted(_) => t.memory == s.memory
  }

  lemma SmoothHappening(s: State, h: Happening, t: State)
    requires LifeInv(s) && Synced(s.disk, s.memory) && Happens(s, h, t) && Smooth(s, h)
    ensures Synced(t.disk, t.memory) && NothingLost(s, h, t)
  {
    hide Integrity, Unstaged, Within, Synced, Allowed, LoadsAs;
    match h
    case Called(op, done) => WriteThrough(s, op, done);
    case Crashed(op, done, stuck) =>
      var p := PlanOf(s.memory, s.disk, op);
      CrashIsAllOrNothing(s.memory, s.disk, op, done, t.memory);
      ReopenedIsSynced(p.disks[done], t.memory, stuck);
    case Restarted(stuck) =>
      ReopenRestores(s.disk, s.memory, t.memory);
      ReopenedIsSynced(s.disk, t.memory, stuck);
  }

  /** So over every life in which nothing stops halfway, no crash and no restart
      loses or changes anything that was stored. */
  lemma {:induction false} SmoothLifeLosesNothing(states: seq<State>, life: seq<Happening>, i: nat)
    requires IsLife(states, life) && LifeInv(states[0]) && Synced(states[0].disk, states[0].memory)
    requires forall j :: 0 <= j < |life| ==> Indexed(states[j].memory) && Smooth(states[j], life[j])
    requires i < |states|
    ensures Synced(states[i].disk, states[i].memory)
    ensures i > 0 ==> Indexed(states[i - 1].memory) && NothingLost(states[i - 1], life[i - 1], states[i])
    decreases i
  {
    hide LifeInv, Synced, Happens, Smooth, NothingLost;
    if i > 0 {
      SmoothLifeLosesNothing(states, life, i - 1);
      LifeKeeps(states, life, i - 1);
      SmoothHappening(states[i - 1], life[i - 1], states[i]);
    }
  }
}
