/** The definition store as the object it is: maps changed in place under one write
    lock, each method making its filesystem calls one by one. A method takes the
    number of those calls that succeed; the next one fails. */
module StoreObject {
  import opened Wrappers
  import opened Definitions
  import opened Store
  import opened StoreProofs
  import opened StoreOutcomes

  /** The entries of each directory, in the order they are listed. */
  datatype Listing = Listing(instances: seq<string>, snapshots: seq<string>, resources: Resources<seq<string>>)

  ghost predicate Lists(l: Listing, d: Disk) {
    && (forall n :: n in d.instances <==> n in l.instances)
    && (forall n :: n in d.snapshots <==> n in l.snapshots)
    && (forall n :: n in d.resources.kernels <==> n in l.resources.kernels)
    && (forall n :: n in d.resources.networks <==> n in l.resources.networks)
    && (forall n :: n in d.resources.volumes <==> n in l.resources.volumes)
  }

  /** The comparisons the deletes make; for a volume, the loop of VolumeMount. */
  method Names(w: Wants, kind: Kind, name: string) returns (yes: bool)
    ensures yes == (name in References(w, kind)) == Uses(w, kind, name)
  {
    match kind
    case Kernels => return w.kernel == name;
    case Networks => return w.network == name;
    case Volumes =>
      for i := 0 to |w.mounts|
        invariant forall j :: 0 <= j < i ==> !(w.mounts[j].isVolume && w.mounts[j].source == name)
      {
        if w.mounts[i].isVolume && w.mounts[i].source == name {
          assert w.mounts[i] in w.mounts;
          return true;
        }
      }
      return false;
  }

  lemma Keeps(s: State, op: Op, done: nat)
    requires Indexed(s.memory)
    ensures Inv(s.memory) && Allowed(s.memory, s.disk, op) ==> Inv(Attempt(s, op, done).0.memory)
  {
    hide Allowed;
    if Inv(s.memory) && Allowed(s.memory, s.disk, op) {
      AttemptKeeps(s, op, done);
    }
  }

  class FileStore {
    var instances: Table<Wants>
    var snapshots: Table<Frozen>
    var resources: Resources<Table<string>>
    var disk: Disk

    function InMemory(): Memory
      reads this
    {
      Memory(instances, snapshots, resources)
    }

    function View(): State
      reads this
    {
      State(InMemory(), disk)
    }

    /** New: load every kind, removing the staging directories that can be. */
    constructor (d: Disk, listing: Listing, stuck: set<string>)
      requires Lists(listing, d)
      ensures LoadsAs(d, InMemory())
      ensures disk == d.(instances := Swept(d.instances, stuck), snapshots := Swept(d.snapshots, stuck))
    {
      var names, instancesLeft := ListDirs(d.instances, listing.instances, stuck);
      var loadedInstances := Load(d.instances, true, names);
      var snapshotNames, snapshotsLeft := ListDirs(d.snapshots, listing.snapshots, stuck);
      var loadedSnapshots := Load(d.snapshots, true, snapshotNames);
      var networks := Load(d.resources.networks, false, listing.resources.networks);
      var volumes := Load(d.resources.volumes, false, listing.resources.volumes);
      var kernels := Load(d.resources.kernels, false, listing.resources.kernels);
      instances, snapshots, resources := loadedInstances, loadedSnapshots, Resources(kernels, networks, volumes);
      disk := d.(instances := instancesLeft, snapshots := snapshotsLeft);
    }

    /** checkReferences. */
    method CheckReferences(w: Wants) returns (ok: bool)
      requires Indexed(InMemory())
      ensures ok == Resolves(InMemory(), w)
    {
      hide Find, WellIndexed;
      if Find(resources.kernels, w.kernel).None? {
        assert w.kernel in References(w, Kernels);
        return false;
      }
      if Find(resources.networks, w.network).None? {
        assert w.network in References(w, Networks);
        return false;
      }
      for i := 0 to |w.mounts|
        invariant forall j :: 0 <= j < i && w.mounts[j].isVolume ==> Find(resources.volumes, w.mounts[j].source).Some?
      {
        if w.mounts[i].isVolume && Find(resources.volumes, w.mounts[i].source).None? {
          assert w.mounts[i].source in References(w, Volumes);
          return false;
        }
      }
      forall r | r in References(w, Volumes)
        ensures Find(resources.volumes, r).Some?
      {
        var m :| m in w.mounts && m.isVolume && m.source == r;
        var j :| 0 <= j < |w.mounts| && w.mounts[j] == m;
      }
      return true;
    }

    /** The scans of the deletes, over every instance and then every snapshot. */
    method IsInUse(kind: Kind, name: string) returns (used: bool)
      ensures used == InUse(InMemory(), kind, name)
    {
      var left := instances.byName.Keys;
      while left != {}
        invariant left <= instances.byName.Keys
        invariant forall n :: n in instances.byName && n !in left ==>
                    name !in References(instances.byName[n].body, kind)
        decreases left
      {
        var n :| n in left;
        used := Names(instances.byName[n].body, kind, name);
        if used {
          return;
        }
        left := left - {n};
      }
      left := snapshots.byName.Keys;
      while left != {}
        invariant left <= snapshots.byName.Keys
        invariant forall n :: n in snapshots.byName && n !in left ==>
                    name !in References(snapshots.byName[n].body.instance.body, kind)
        decreases left
      {
        var n :| n in left;
        used := Names(snapshots.byName[n].body.instance.body, kind, name);
        if used {
          return;
        }
        left := left - {n};
      }
      return false;
    }

    method CreateInstance(v: Spec, done: nat) returns (e: Option<Error>)
      requires Indexed(InMemory())
      modifies this
      ensures (View(), e) == Attempt(old(View()), Op.CreateInstance(v), done)
      ensures CreatesInstance(old(View()), v, done, View(), e)
      ensures old(Inv(InMemory()) && Allowed(InMemory(), disk, Op.CreateInstance(v))) ==> Inv(InMemory())
    {
      hide Inv, Allowed, CreatesInstance, WellIndexed, Find, Resolves, ValidName, InUse, Put, Drop, Move;
      Keeps(View(), Op.CreateInstance(v), done);
      CreateInstanceOutcome(View(), v, done);
      if !ValidName(v.name) {
        return Some(InvalidArgument);
      }
      if Find(instances, v.name).Some? {
        return Some(AlreadyExists);
      }
      var ok := CheckReferences(v.body);
      if !ok {
        return Some(InvalidArgument);
      }
      if done < 1 {
        return Some(Filesystem);
      }
      ghost var before := disk;
      disk := MakeInstanceDir(disk, v.name);
      if done < 2 {
        return Some(Filesystem);
      }
      disk := WriteInstance(disk, v);
      assert disk == WriteInstance(before, v);
      instances := Put(instances, v);
      return None;
    }

    method UpdateInstance(v: Spec, done: nat) returns (e: Option<Error>)
      requires Indexed(InMemory())
      modifies this
      ensures (View(), e) == Attempt(old(View()), Op.UpdateInstance(v), done)
      ensures UpdatesInstance(old(View()), v, done, View(), e)
      ensures old(Inv(InMemory()) && Allowed(InMemory(), disk, Op.UpdateInstance(v))) ==> Inv(InMemory())
    {
      hide Inv, Allowed, UpdatesInstance, WellIndexed, Find, Resolves, ValidName, InUse, Put, Drop, Move;
      Keeps(View(), Op.UpdateInstance(v), done);
      UpdateInstanceOutcome(View(), v, done);
      if Find(instances, v.name).None? {
        return Some(NotFound);
      }
      var ok := CheckReferences(v.body);
      if !ok {
        return Some(InvalidArgument);
      }
      if v.name !in disk.instances || done < 1 {
        return Some(Filesystem);
      }
      disk := WriteInstance(disk, v);
      instances := Put(instances, v);
      return None;
    }

    method RenameInstance(key: string, renamed: Spec, done: nat) returns (e: Option<Error>)
      requires Indexed(InMemory())
      modifies this
      ensures (View(), e) == Attempt(old(View()), Op.RenameInstance(key, renamed), done)
      ensures RenamesInstance(old(View()), key, renamed, done, View(), e)
      ensures old(Inv(InMemory()) && Allowed(InMemory(), disk, Op.RenameInstance(key, renamed))) ==> Inv(InMemory())
    {
      hide Inv, Allowed, RenamesInstance, WellIndexed, Find, Resolves, ValidName, InUse, Put, Drop;
      Keeps(View(), Op.RenameInstance(key, renamed), done);
      RenameInstanceOutcome(View(), key, renamed, done);
      var current := Find(instances, key);
      if current.None? {
        return Some(NotFound);
      }
      var ok := CheckReferences(renamed.body);
      if !ok {
        return Some(InvalidArgument);
      }
      if !ValidName(renamed.name) {
        return Some(InvalidArgument);
      }
      if renamed.name == current.value.name {
        return None;
      }
      if Find(instances, renamed.name).Some? {
        return Some(AlreadyExists);
      }
      if !CanMove(disk.instances, current.value.name, renamed.name) || done < 1 {
        return Some(Filesystem);
      }
      disk := disk.(instances := Moved(disk.instances, current.value.name, renamed.name));
      if done < 2 {
        return Some(Filesystem);
      }
      disk := WriteInstance(disk, renamed);
      instances := Table(instances.byName - {current.value.name}, instances.names);
      instances := Put(instances, renamed);
      return None;
    }

    method DeleteInstance(key: string, done: nat) returns (e: Option<Error>)
      requires Indexed(InMemory())
      modifies this
      ensures (View(), e) == Attempt(old(View()), Op.DeleteInstance(key), done)
      ensures Deletes(old(instances), key, done, instances, disk.instances, e)
      ensures OnlyInstances(old(InMemory()), InMemory())
      ensures old(Inv(InMemory()) && Allowed(InMemory(), disk, Op.DeleteInstance(key))) ==> Inv(InMemory())
    {
      hide Inv, Allowed, Deletes, WellIndexed, Find, Resolves, ValidName, InUse, Put, Drop, Move;
      Keeps(View(), Op.DeleteInstance(key), done);
      DeleteInstanceOutcome(View(), key, done);
      var v := Find(instances, key);
      if v.None? {
        return Some(NotFound);
      }
      var name := v.value.name;
      if done < 1 {
        return Some(Filesystem);
      }
      ghost var before := disk.instances;
      disk := disk.(instances := Emptied(disk.instances, name));
      if done < 2 {
        return Some(Filesystem);
      }
      disk := disk.(instances := disk.instances - {name});
      assert disk.instances == before - {name};
      instances := Drop(instances, v.value);
      return None;
    }

    method StageSnapshot(dir: string, done: nat) returns (e: Option<Error>)
      requires Indexed(InMemory())
      modifies this`disk
      ensures (View(), e) == Attempt(old(View()), Op.StageSnapshot(dir), done)
      ensures StagesSnapshot(old(View()), dir, done, View(), e)
      ensures old(Inv(InMemory()) && Allowed(InMemory(), disk, Op.StageSnapshot(dir))) ==> Inv(InMemory())
    {
      hide Inv, Allowed, StagesSnapshot, WellIndexed, Find, Resolves, ValidName, InUse, Put, Drop, Move;
      Keeps(View(), Op.StageSnapshot(dir), done);
      StageSnapshotOutcome(View(), dir, done);
      if dir in disk.snapshots || !IsStaging(dir) || done < 1 {
        return Some(Filesystem);
      }
      disk := disk.(snapshots := disk.snapshots[dir := None]);
      return None;
    }

    method CreateSnapshot(v: Snapshot, staged: string, done: nat) returns (e: Option<Error>)
      requires Indexed(InMemory())
      modifies this
      ensures (View(), e) == Attempt(old(View()), Op.CreateSnapshot(v, staged), done)
      ensures CreatesSnapshot(old(View()), v, staged, done, View(), e)
      ensures old(Inv(InMemory()) && Allowed(InMemory(), disk, Op.CreateSnapshot(v, staged))) ==> Inv(InMemory())
    {
      hide Inv, Allowed, CreatesSnapshot, WellIndexed, Find, Resolves, ValidName, InUse, Put, Drop, Move;
      Keeps(View(), Op.CreateSnapshot(v, staged), done);
      CreateSnapshotOutcome(View(), v, staged, done);
      if !ValidName(v.name) {
        return Some(InvalidArgument);
      }
      if Find(snapshots, v.name).Some? {
        return Some(AlreadyExists);
      }
      var ok := CheckReferences(v.body.instance.body);
      if !ok {
        return Some(InvalidArgument);
      }
      if staged !in disk.snapshots || done < 1 {
        return Some(Filesystem);
      }
      disk := disk.(snapshots := disk.snapshots[staged := Some(v)]);
      if !CanMove(disk.snapshots, staged, v.name) || done < 2 {
        return Some(Filesystem);
      }
      disk := disk.(snapshots := Moved(disk.snapshots, staged, v.name));
      snapshots := Put(snapshots, v);
      return None;
    }

    method DeleteSnapshot(key: string, done: nat) returns (e: Option<Error>)
      requires Indexed(InMemory())
      modifies this
      ensures (View(), e) == Attempt(old(View()), Op.DeleteSnapshot(key), done)
      ensures Deletes(old(snapshots), key, done, snapshots, disk.snapshots, e)
      ensures OnlySnapshots(old(InMemory()), InMemory())
      ensures old(Inv(InMemory()) && Allowed(InMemory(), disk, Op.DeleteSnapshot(key))) ==> Inv(InMemory())
    {
      hide Inv, Allowed, Deletes, WellIndexed, Find, Resolves, ValidName, InUse, Put, Drop, Move;
      Keeps(View(), Op.DeleteSnapshot(key), done);
      DeleteSnapshotOutcome(View(), key, done);
      var v := Find(snapshots, key);
      if v.None? {
        return Some(NotFound);
      }
      var name := v.value.name;
      if done < 1 {
        return Some(Filesystem);
      }
      ghost var before := disk.snapshots;
      disk := disk.(snapshots := Emptied(disk.snapshots, name));
      if done < 2 {
        return Some(Filesystem);
      }
      disk := disk.(snapshots := disk.snapshots - {name});
      assert disk.snapshots == before - {name};
      snapshots := Drop(snapshots, v.value);
      return None;
    }

    method CreateResource(kind: Kind, v: Named<string>, done: nat) returns (e: Option<Error>)
      requires Indexed(InMemory())
      modifies this
      ensures (View(), e) == Attempt(old(View()), Op.CreateResource(kind, v), done)
      ensures CreatesResource(old(View()), kind, v, done, View(), e)
      ensures old(Inv(InMemory()) && Allowed(InMemory(), disk, Op.CreateResource(kind, v))) ==> Inv(InMemory())
    {
      hide Inv, Allowed, CreatesResource, WellIndexed, Find, Resolves, ValidName, InUse, Put, Drop, Move;
      Keeps(View(), Op.CreateResource(kind, v), done);
      CreateResourceOutcome(View(), kind, v, done);
      if !ValidName(v.name) {
        return Some(InvalidArgument);
      }
      if Find(resources.Of(kind), v.name).Some? {
        return Some(AlreadyExists);
      }
      if done < 1 {
        return Some(Filesystem);
      }
      disk := WriteResource(disk, kind, v);
      resources := resources.With(kind, Put(resources.Of(kind), v));
      return None;
    }

    method UpdateKernel(v: Named<string>, done: nat) returns (e: Option<Error>)
      requires Indexed(InMemory())
      modifies this
      ensures (View(), e) == Attempt(old(View()), Op.UpdateKernel(v), done)
      ensures UpdatesKernel(old(View()), v, done, View(), e)
      ensures old(Inv(InMemory()) && Allowed(InMemory(), disk, Op.UpdateKernel(v))) ==> Inv(InMemory())
    {
      hide Inv, Allowed, UpdatesKernel, WellIndexed, Find, Resolves, ValidName, InUse, Put, Drop, Move;
      Keeps(View(), Op.UpdateKernel(v), done);
      UpdateKernelOutcome(View(), v, done);
      if Find(resources.kernels, v.name).None? {
        return Some(NotFound);
      }
      if done < 1 {
        return Some(Filesystem);
      }
      disk := WriteResource(disk, Kernels, v);
      resources := resources.With(Kernels, Put(resources.kernels, v));
      return None;
    }

    method DeleteResource(kind: Kind, key: string, done: nat) returns (e: Option<Error>)
      requires Indexed(InMemory())
      modifies this
      ensures (View(), e) == Attempt(old(View()), Op.DeleteResource(kind, key), done)
      ensures DeletesResource(old(View()), kind, key, done, View(), e)
      ensures old(Inv(InMemory()) && Allowed(InMemory(), disk, Op.DeleteResource(kind, key))) ==> Inv(InMemory())
    {
      hide Inv, Allowed, DeletesResource, WellIndexed, Find, Resolves, ValidName, InUse, Put, Drop, Move;
      Keeps(View(), Op.DeleteResource(kind, key), done);
      DeleteResourceOutcome(View(), kind, key, done);
      hide References, WellIndexed, Find, InUse, Drop;
      var v := Find(resources.Of(kind), key);
      if v.None? {
        return Some(NotFound);
      }
      var used := IsInUse(kind, v.value.name);
      if used {
        return Some(InvalidState);
      }
      if done < 1 {
        return Some(Filesystem);
      }
      disk := RemoveResource(disk, kind, v.value.name);
      resources := resources.With(kind, Drop(resources.Of(kind), v.value));
      return None;
    }
  }
}
