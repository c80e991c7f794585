/** What every operation of the definition store keeps: its indexes, its
    references, and the files that hold it. */
module StoreProofs {
  import opened Wrappers
  import opened Definitions
  import opened Store

  // ---------------------------------------------------------------- Invariants

  /** What the definition names is there, under that name. */
  ghost predicate Present(rs: Resources<Table<string>>, w: Wants) {
    forall kind, r :: r in References(w, kind) ==> r in rs.Of(kind).byName
  }

  /** Every stored instance and snapshot names only what is there. */
  ghost predicate Integrity(m: Memory) {
    && (forall n :: n in m.instances.byName ==> Present(m.resources, m.instances.byName[n].body))
    && (forall n :: n in m.snapshots.byName ==> Present(m.resources, m.snapshots.byName[n].body.instance.body))
  }

  ghost predicate Inv(m: Memory) {
    Indexed(m) && Integrity(m)
  }

  /** Whether a definition names things by name: none of its references is the ID
      of something and not also a name. */
  ghost predicate ByName(m: Memory, w: Wants) {
    forall kind, r :: r in References(w, kind) && r in m.resources.Of(kind).names ==> r in m.resources.Of(kind).byName
  }

  /** What the store leaves to its callers: new IDs are new, updates and renames
      keep IDs, and references are by name. */
  ghost predicate Proper(m: Memory, op: Op)
    requires Indexed(m)
  {
    match op
    case CreateInstance(v) => v.id !in m.instances.names && ByName(m, v.body)
    case UpdateInstance(v) => v.name in m.instances.byName && m.instances.byName[v.name].id == v.id && ByName(m, v.body)
    case RenameInstance(key, v) =>
      (Find(m.instances, key).Some? ==> Find(m.instances, key).value.id == v.id) && ByName(m, v.body)
    case CreateSnapshot(v, _) => v.id !in m.snapshots.names && ByName(m, v.body.instance.body)
    case CreateResource(kind, v) => v.id !in m.resources.Of(kind).names
    case UpdateKernel(v) => v.name in m.resources.kernels.byName && m.resources.kernels.byName[v.name].id == v.id
    case _ => true
  }

  /** A call callers may make: it is proper if it is carried out, whatever it is if
      it is refused, and a snapshot's files are in a staging directory. */
  ghost predicate Allowed(m: Memory, d: Disk, op: Op)
    requires Indexed(m)
  {
    var p := PlanOf(m, d, op);
    (p.Steps? ==> Proper(m, op)) && (op.CreateSnapshot? && !p.Refuse? ==> IsStaging(op.staged))
  }

  // ---------------------------------------------------------------- References

  /** Of definitions whose references resolve, those that name by name, and no
      others, name what is there. */
  lemma PresentIff(m: Memory, w: Wants)
    requires Indexed(m) && Resolves(m, w)
    ensures Present(m.resources, w) <==> ByName(m, w)
  {
    if ByName(m, w) {
      forall kind, r | r in References(w, kind)
        ensures r in m.resources.Of(kind).byName
      {
        assert Find(m.resources.Of(kind), r).Some?;
      }
    }
  }

  /** Keeping one more instance, whatever else goes. */
  lemma StoringInstance(m: Memory, t: Table<Wants>, v: Spec)
    requires Integrity(m) && v.name in t.byName && t.byName[v.name] == v
    requires forall n :: n in t.byName && n != v.name ==>
               n in m.instances.byName && t.byName[n] == m.instances.byName[n]
    ensures Integrity(m.(instances := t)) <==> Present(m.resources, v.body)
  {
  }

  lemma StoringSnapshot(m: Memory, t: Table<Frozen>, v: Snapshot)
    requires Integrity(m) && v.name in t.byName && t.byName[v.name] == v
    requires forall n :: n in t.byName && n != v.name ==>
               n in m.snapshots.byName && t.byName[n] == m.snapshots.byName[n]
    ensures Integrity(m.(snapshots := t)) <==> Present(m.resources, v.body.instance.body)
  {
  }

  lemma MoreResources(m: Memory, kind: Kind, v: Named<string>)
    requires Integrity(m)
    ensures Integrity(PutResource(m, kind, v))
  {
    hide Put;
    forall w: Wants | Present(m.resources, w)
      ensures Present(PutResource(m, kind, v).resources, w)
    {
      PutAdds(m.resources.Of(kind), v);
    }
  }

  lemma PutAdds<B>(t: Table<B>, v: Named<B>)
    ensures Put(t, v).byName == t.byName[v.name := v]
  {
  }

  lemma FewerResources(m: Memory, kind: Kind, v: Named<string>)
    requires Integrity(m) && !InUse(m, kind, v.name)
    ensures Integrity(DropResource(m, kind, v))
  {
    var after := DropResource(m, kind, v);
    forall n | n in m.instances.byName
      ensures Present(after.resources, m.instances.byName[n].body)
    {
      assert v.name !in References(m.instances.byName[n].body, kind);
    }
    forall n | n in m.snapshots.byName
      ensures Present(after.resources, m.snapshots.byName[n].body.instance.body)
    {
      assert v.name !in References(m.snapshots.byName[n].body.instance.body, kind);
    }
  }

  // ---------------------------------------------------------------- Each operation

  /** An instance the store takes leaves every reference leading somewhere exactly
      when it names things by name. */
  lemma CreateInstanceKeepsIff(m: Memory, d: Disk, v: Spec)
    requires Inv(m) && PlanCreateInstance(m, d, v).Steps?
    ensures Integrity(PlanCreateInstance(m, d, v).memory) <==> ByName(m, v.body)
    ensures Indexed(PlanCreateInstance(m, d, v).memory) <==> v.id !in m.instances.names
  {
    PresentIff(m, v.body);
    StoringInstance(m, Put(m.instances, v), v);
    PutKeepsIff(m.instances, v);
  }

  lemma UpdateInstanceKeepsIff(m: Memory, d: Disk, v: Spec)
    requires Inv(m) && PlanUpdateInstance(m, d, v).Steps?
    ensures Integrity(PlanUpdateInstance(m, d, v).memory) <==> ByName(m, v.body)
    ensures Indexed(PlanUpdateInstance(m, d, v).memory) <==> KeepsIDs(m.instances, v)
  {
    PresentIff(m, v.body);
    StoringInstance(m, Put(m.instances, v), v);
    PutKeepsIff(m.instances, v);
  }

  lemma RenameInstanceKeepsIff(m: Memory, d: Disk, key: string, v: Spec)
    requires Inv(m) && PlanRenameInstance(m, d, key, v).Steps? && v.name !in m.instances.byName
    ensures Integrity(PlanRenameInstance(m, d, key, v).memory) <==> ByName(m, v.body)
    ensures var current := Find(m.instances, key).value;
            Indexed(PlanRenameInstance(m, d, key, v).memory) <==>
            v.id == current.id || (current.id == "" && v.id !in m.instances.names)
  {
    hide ValidName, Parts, Moved, CanMove, References, Present, ByName;
    var current := Find(m.instances, key).value;
    PresentIff(m, v.body);
    StoringInstance(m, Move(m.instances, current, v), v);
    MoveKeepsIff(m.instances, current, v);
  }

  lemma CreateSnapshotKeepsIff(m: Memory, d: Disk, v: Snapshot, staged: string)
    requires Inv(m) && PlanCreateSnapshot(m, d, v, staged).Steps?
    ensures Integrity(PlanCreateSnapshot(m, d, v, staged).memory) <==> ByName(m, v.body.instance.body)
    ensures Indexed(PlanCreateSnapshot(m, d, v, staged).memory) <==> v.id !in m.snapshots.names
  {
    PresentIff(m, v.body.instance.body);
    StoringSnapshot(m, Put(m.snapshots, v), v);
    PutKeepsIff(m.snapshots, v);
  }

  lemma CreateResourceKeepsIff(m: Memory, d: Disk, kind: Kind, v: Named<string>)
    requires Inv(m) && PlanCreateResource(m, d, kind, v).Steps?
    ensures Integrity(PlanCreateResource(m, d, kind, v).memory)
    ensures Indexed(PlanCreateResource(m, d, kind, v).memory) <==> v.id !in m.resources.Of(kind).names
  {
    MoreResources(m, kind, v);
    PutKeepsIff(m.resources.Of(kind), v);
  }

  lemma UpdateKernelKeepsIff(m: Memory, d: Disk, v: Named<string>)
    requires Inv(m) && PlanUpdateKernel(m, d, v).Steps?
    ensures Integrity(PlanUpdateKernel(m, d, v).memory)
    ensures Indexed(PlanUpdateKernel(m, d, v).memory) <==> KeepsIDs(m.resources.kernels, v)
  {
    MoreResources(m, Kernels, v);
    PutKeepsIff(m.resources.kernels, v);
  }

  lemma DeletesKeep(m: Memory, d: Disk, op: Op)
    requires Inv(m) && (op.DeleteInstance? || op.DeleteSnapshot? || op.DeleteResource?)
    requires PlanOf(m, d, op).Steps?
    ensures Inv(PlanOf(m, d, op).memory)
  {
    match op
    case DeleteInstance(key) => DropKeeps(m.instances, Find(m.instances, key).value);
    case DeleteSnapshot(key) => DropKeeps(m.snapshots, Find(m.snapshots, key).value);
    case DeleteResource(kind, key) =>
      var v := Find(m.resources.Of(kind), key).value;
      DropKeeps(m.resources.Of(kind), v);
      FewerResources(m, kind, v);
  }

  // ---------------------------------------------------------------- Every run

  lemma PlanKeeps(m: Memory, d: Disk, op: Op)
    requires Inv(m) && Proper(m, op) && PlanOf(m, d, op).Steps?
    ensures Inv(PlanOf(m, d, op).memory)
  {
    hide Integrity, ByName, WellIndexed, Put, Move, Drop, Resolves, ValidName;
    match op
    case CreateInstance(v) => CreateInstanceKeepsIff(m, d, v);
    case UpdateInstance(v) => ProperUpdate(m.instances, v); UpdateInstanceKeepsIff(m, d, v);
    case RenameInstance(key, v) =>
      if v.name !in m.instances.byName {
        RenameInstanceKeepsIff(m, d, key, v);
      } else {
        RenameToItself(m, d, key, v);
      }
    case CreateSnapshot(v, staged) => CreateSnapshotKeepsIff(m, d, v, staged);
    case CreateResource(kind, v) => CreateResourceKeepsIff(m, d, kind, v);
    case UpdateKernel(v) => ProperUpdate(m.resources.kernels, v); UpdateKernelKeepsIff(m, d, v);
    case StageSnapshot(_) =>
    case _ => DeletesKeep(m, d, op);
  }

  lemma ProperUpdate<B>(t: Table<B>, v: Named<B>)
    requires WellIndexed(t) && v.name in t.byName && t.byName[v.name].id == v.id
    ensures KeepsIDs(t, v)
  {
  }

  lemma RenameToItself(m: Memory, d: Disk, key: string, v: Spec)
    requires Indexed(m) && PlanRenameInstance(m, d, key, v).Steps? && v.name in m.instances.byName
    ensures PlanRenameInstance(m, d, key, v) == Steps([d], m)
  {
  }

  /** Whatever becomes of an operation, the store is left right. */
  lemma AttemptKeeps(s: State, op: Op, done: nat)
    requires Inv(s.memory) && Allowed(s.memory, s.disk, op)
    ensures Inv(Attempt(s, op, done).0.memory)
  {
    hide Integrity, Indexed, Proper;
    if PlanOf(s.memory, s.disk, op).Steps? {
      PlanKeeps(s.memory, s.disk, op);
    }
  }

  /** An operation as it was called, and how many filesystem calls it got done. */
  datatype Call = Call(op: Op, done: nat)

  /** The states a sequence of calls goes through. */
  ghost predicate IsRun(states: seq<State>, calls: seq<Call>) {
    && |states| == |calls| + 1
    && forall i :: 0 <= i < |calls| ==> IsStep(states[i], calls[i], states[i + 1])
  }

  ghost predicate IsStep(s: State, c: Call, t: State) {
    Indexed(s.memory) && Allowed(s.memory, s.disk, c.op) && t == Attempt(s, c.op, c.done).0
  }

  lemma RunStarts(states: seq<State>, calls: seq<Call>)
    requires IsRun(states, calls) && calls != []
    ensures IsRun(states[..|calls|], calls[..|calls| - 1])
  {
    var ss, cs := states[..|calls|], calls[..|calls| - 1];
    forall i | 0 <= i < |cs|
      ensures IsStep(ss[i], cs[i], ss[i + 1])
    {
      assert IsStep(states[i], calls[i], states[i + 1]);
    }
  }

  /** Over every sequence of operations, failing and refused ones among them, no
      stored instance or snapshot names a kernel, network or volume that is not
      there, and every ID leads to the one definition with that ID. */
  lemma {:induction false} RunKeeps(states: seq<State>, calls: seq<Call>)
    requires IsRun(states, calls) && Inv(states[0].memory)
    ensures Inv(states[|calls|].memory)
    decreases |calls|
  {
    if calls != [] {
      var last := |calls| - 1;
      RunStarts(states, calls);
      RunKeeps(states[..|calls|], calls[..last]);
      assert IsStep(states[last], calls[last], states[last + 1]);
      AttemptKeeps(states[last], calls[last].op, calls[last].done);
    }
  }

  /** Why references must be by name: an instance may name its kernel by ID, which
      deleting the kernel does not look for, and is then left without one. */
  lemma ReferenceByIDDangles(m: Memory, d: Disk, kernel: Named<string>, v: Spec)
    requires Inv(m) && m.instances == Table(map[], map[]) && m.snapshots == Table(map[], map[])
    requires m.resources.kernels == Table(map[kernel.name := kernel], map[kernel.id := kernel.name])
    requires kernel.id != "" && kernel.id != kernel.name && ValidName(v.name)
    requires v.body.kernel == kernel.id && v.body.mounts == [] && v.body.network in m.resources.networks.byName
    ensures var created := PlanCreateInstance(m, d, v);
            created.Steps? && Indexed(created.memory) &&
            var deleted := PlanDeleteResource(created.memory, d, Kernels, kernel.name);
            deleted.Steps? && v.name in deleted.memory.instances.byName && Indexed(deleted.memory) &&
            Find(deleted.memory.resources.kernels, v.body.kernel).None?
  {
    hide ValidName, Integrity;
    var created := PlanCreateInstance(m, d, v);
    assert created.Steps?;
    PutKeepsIff(m.instances, v);
    assert Find(created.memory.resources.kernels, kernel.name) == Some(kernel);
    assert !InUse(created.memory, Kernels, kernel.name);
    DropKeeps(m.resources.kernels, kernel);
  }

  /** Every reference of a stored definition can be found, by name or by ID. */
  ghost predicate Resolving(m: Memory)
    requires Indexed(m)
  {
    && (forall n :: n in m.instances.byName ==> Resolves(m, m.instances.byName[n].body))
    && (forall n :: n in m.snapshots.byName ==> Resolves(m, m.snapshots.byName[n].body.instance.body))
  }

  /** A delete the store allows leaves every reference resolving exactly when no
      stored definition names what it deletes by an ID that is not also a name. */
  lemma DeleteKeepsResolvingIff(m: Memory, d: Disk, kind: Kind, key: string)
    requires Indexed(m) && Resolving(m) && PlanDeleteResource(m, d, kind, key).Steps?
    ensures var v := Find(m.resources.Of(kind), key).value;
            var after := PlanDeleteResource(m, d, kind, key).memory;
            && Indexed(after)
            && (Resolving(after) <==> !(InUse(m, kind, v.id) && v.id !in m.resources.Of(kind).byName))
  {
    var v := Find(m.resources.Of(kind), key).value;
    var after := PlanDeleteResource(m, d, kind, key).memory;
    DropKeeps(m.resources.Of(kind), v);
    var lost := v.id !in m.resources.Of(kind).byName;
    forall n | n in m.instances.byName
      ensures Resolves(after, m.instances.byName[n].body) <==>
              !(lost && v.id in References(m.instances.byName[n].body, kind))
    {
      assert v.name !in References(m.instances.byName[n].body, kind);
      ResolvesAfter(m, kind, v, m.instances.byName[n].body);
    }
    forall n | n in m.snapshots.byName
      ensures Resolves(after, m.snapshots.byName[n].body.instance.body) <==>
              !(lost && v.id in References(m.snapshots.byName[n].body.instance.body, kind))
    {
      assert v.name !in References(m.snapshots.byName[n].body.instance.body, kind);
      ResolvesAfter(m, kind, v, m.snapshots.byName[n].body.instance.body);
    }
  }

  lemma ResolvesAfter(m: Memory, kind: Kind, v: Named<string>, w: Wants)
    requires Indexed(m) && Resolves(m, w) && v.name !in References(w, kind)
    requires v.name in m.resources.Of(kind).byName && m.resources.Of(kind).byName[v.name] == v
    requires Indexed(DropResource(m, kind, v))
    ensures Resolves(DropResource(m, kind, v), w) <==>
            !(v.id !in m.resources.Of(kind).byName && v.id in References(w, kind))
  {
    hide References;
    var t := m.resources.Of(kind);
    forall r | r in References(w, kind)
      ensures Find(Drop(t, v), r).Some? <==> !(r == v.id && v.id !in t.byName)
    {
      assert Find(t, r).Some?;
    }
    var after := DropResource(m, kind, v);
    assert after.resources.Of(kind) == Drop(t, v);
    if v.id !in t.byName && v.id in References(w, kind) {
      assert Find(after.resources.Of(kind), v.id).None?;
    }
  }

  // ---------------------------------------------------------------- The files

  /** Loading the disk afresh gives the definitions in memory. */
  ghost predicate Synced(d: Disk, m: Memory) {
    && Holds(d.instances, true, m.instances)
    && Holds(d.snapshots, true, m.snapshots)
    && Holds(d.resources.kernels, false, m.resources.kernels)
    && Holds(d.resources.networks, false, m.resources.networks)
    && Holds(d.resources.volumes, false, m.resources.volumes)
  }

  lemma SyncedOf(d: Disk, m: Memory, kind: Kind)
    requires Synced(d, m)
    ensures Holds(d.resources.Of(kind), false, m.resources.Of(kind))
  {
  }

  lemma SyncedWith(d: Disk, m: Memory, kind: Kind, a: Area<string>, t: Table<string>)
    requires Synced(d, m) && Holds(a, false, t)
    ensures Synced(d.(resources := d.resources.With(kind, a)), m.(resources := m.resources.With(kind, t)))
  {
    hide Holds;
  }

  lemma CreateInstanceDisks(m: Memory, d: Disk, v: Spec)
    requires Indexed(m) && Synced(d, m) && PlanCreateInstance(m, d, v).Steps?
    ensures var p := PlanCreateInstance(m, d, v);
            |p.disks| == 3 && Synced(p.disks[0], m) && Synced(p.disks[1], m) && Synced(p.disks[2], p.memory)
  {
    hide Loadable, Resolves;
    ValidIsNotStaging(v.name);
    LoadableBlank(d.instances, true, v.name);
    LoadableWrite(d.instances, true, v);
  }

  lemma UpdateInstanceDisks(m: Memory, d: Disk, v: Spec)
    requires Indexed(m) && Synced(d, m) && v.name in m.instances.byName && PlanUpdateInstance(m, d, v).Steps?
    ensures var p := PlanUpdateInstance(m, d, v);
            |p.disks| == 2 && Synced(p.disks[0], m) && Synced(p.disks[1], p.memory)
  {
    hide Resolves;
    assert v.name in Loadable(d.instances, true);
    LoadableWrite(d.instances, true, v);
  }

  /** A directory that has moved, and not been rewritten, loads as nothing. */
  lemma MovedLoads<B>(a: Area<B>, t: Table<B>, from: string, v: Named<B>)
    requires WellIndexed(t) && Holds(a, true, t) && from in t.byName && v.name !in t.byName && !IsStaging(v.name)
    requires CanMove(a, from, v.name)
    ensures Loadable(Moved(a, from, v.name), true) == t.byName - {from}
    ensures Loadable(Moved(a, from, v.name)[v.name := Some(v)], true) == (t.byName - {from})[v.name := v]
  {
    assert from in Loadable(a, true);
    assert a[from].value.name == from;
    assert Loadable(Moved(a, from, v.name), true) == Loadable(a, true) - {from} by {
      assert v.name !in Loadable(a, true);
    }
    LoadableWrite(Moved(a, from, v.name), true, v);
  }

  /** Between a rename's move and its rewrite the instance loads under neither name. */
  lemma RenameInstanceDisks(m: Memory, d: Disk, key: string, v: Spec)
    requires Indexed(m) && Synced(d, m) && PlanRenameInstance(m, d, key, v).Steps? && v.name !in m.instances.byName
    ensures var p := PlanRenameInstance(m, d, key, v);
            && |p.disks| == 3 && Synced(p.disks[0], m) && Synced(p.disks[2], p.memory)
            && Synced(p.disks[1], m.(instances := Drop(m.instances, Find(m.instances, key).value)))
            && !Synced(p.disks[1], m) && !Synced(p.disks[1], p.memory)
  {
    hide Loadable, Resolves, ValidName, WellIndexed, Moved;
    ValidIsNotStaging(v.name);
    var current := Find(m.instances, key).value;
    MovedLoads(d.instances, m.instances, current.name, v);
    assert current.name in m.instances.byName && current.name !in m.instances.byName - {current.name};
    assert v.name in Move(m.instances, current, v).byName && v.name !in m.instances.byName - {current.name};
  }

  lemma EmptiedLoads<B>(a: Area<B>, dirs: bool, n: string)
    ensures Loadable(Emptied(a, n), dirs) == Loadable(a, dirs) - {n}
  {
  }

  lemma DeleteInstanceDisks(m: Memory, d: Disk, key: string)
    requires Indexed(m) && Synced(d, m) && PlanDeleteInstance(m, d, key).Steps?
    ensures var p := PlanDeleteInstance(m, d, key);
            && |p.disks| == 3 && Synced(p.disks[0], m) && Synced(p.disks[1], p.memory) && Synced(p.disks[2], p.memory)
            && !Synced(p.disks[1], m)
  {
    hide Loadable, Emptied;
    var v := Find(m.instances, key).value;
    EmptiedLoads(d.instances, true, v.name);
    LoadableRemove(d.instances, true, v.name);
    assert v.name in m.instances.byName && v.name !in m.instances.byName - {v.name};
  }

  lemma StageSnapshotDisks(m: Memory, d: Disk, dir: string)
    requires Synced(d, m) && PlanStageSnapshot(m, d, dir).Steps?
    ensures var p := PlanStageSnapshot(m, d, dir);
            |p.disks| == 2 && Synced(p.disks[0], m) && Synced(p.disks[1], m) && p.memory == m
  {
    LoadableStaging(d.snapshots, dir, None);
  }

  /** A snapshot is whole or absent: until its directory is in place it does not
      load, and then all of it is there. */
  lemma CreateSnapshotDisks(m: Memory, d: Disk, v: Snapshot, staged: string)
    requires Indexed(m) && Synced(d, m) && IsStaging(staged) && !PlanCreateSnapshot(m, d, v, staged).Refuse?
    ensures var p := PlanCreateSnapshot(m, d, v, staged);
            && (forall k :: 0 <= k < |p.disks| && k < 2 ==> Synced(p.disks[k], m))
            && (p.Blocked? ==> |p.disks| <= 2)
            && (p.Steps? ==> |p.disks| == 3 && Synced(p.disks[2], p.memory))
  {
    hide Resolves, WellIndexed, Loadable;
    ValidIsNotStaging(v.name);
    LoadableStaging(d.snapshots, staged, Some(v));
    LoadableStaging(d.snapshots[staged := Some(v)], staged, None);
    LoadableWrite(d.snapshots[staged := Some(v)] - {staged}, true, v);
  }

  lemma DeleteSnapshotDisks(m: Memory, d: Disk, key: string)
    requires Indexed(m) && Synced(d, m) && PlanDeleteSnapshot(m, d, key).Steps?
    ensures var p := PlanDeleteSnapshot(m, d, key);
            && |p.disks| == 3 && Synced(p.disks[0], m) && Synced(p.disks[1], p.memory) && Synced(p.disks[2], p.memory)
            && !Synced(p.disks[1], m)
  {
    hide Loadable, Emptied;
    var v := Find(m.snapshots, key).value;
    EmptiedLoads(d.snapshots, true, v.name);
    LoadableRemove(d.snapshots, true, v.name);
    assert v.name in m.snapshots.byName && v.name !in m.snapshots.byName - {v.name};
  }

  lemma PutResourceDisks(m: Memory, d: Disk, kind: Kind, v: Named<string>)
    requires Synced(d, m)
    ensures Synced(WriteResource(d, kind, v), PutResource(m, kind, v))
  {
    SyncedOf(d, m, kind);
    LoadableWrite(d.resources.Of(kind), false, v);
    SyncedWith(d, m, kind, d.resources.Of(kind)[v.name := Some(v)], Put(m.resources.Of(kind), v));
  }

  lemma DropResourceDisks(m: Memory, d: Disk, kind: Kind, v: Named<string>)
    requires Synced(d, m)
    ensures Synced(RemoveResource(d, kind, v.name), DropResource(m, kind, v))
  {
    SyncedOf(d, m, kind);
    LoadableRemove(d.resources.Of(kind), false, v.name);
    SyncedWith(d, m, kind, d.resources.Of(kind) - {v.name}, Drop(m.resources.Of(kind), v));
  }

  // ---------------------------------------------------------------- Write-through

  /** Whether an operation that stops after one filesystem call stops halfway: a
      rename has moved its directory, a removal has taken the definition in it. */
  predicate StopsHalfway(op: Op) {
    op.RenameInstance? || op.DeleteInstance? || op.DeleteSnapshot?
  }

  /** The disks of a plan, and what each loads as: before a rename's move and
      rewrite are both done or neither is, nothing else is in between. */
  lemma PlanDisks(m: Memory, d: Disk, op: Op, k: nat)
    requires Indexed(m) && Allowed(m, d, op) && Synced(d, m)
    requires var p := PlanOf(m, d, op); !p.Refuse? && k < |p.disks|
    ensures var p := PlanOf(m, d, op);
            && (p.Blocked? ==> Synced(p.disks[k], m))
            && (p.Steps? && k == |p.disks| - 1 ==> Synced(p.disks[k], p.memory))
            && (p.Steps? && k < |p.disks| - 1 ==> (Synced(p.disks[k], m) <==> !(StopsHalfway(op) && k == 1)))
            && (p.Steps? ==>
                  (Synced(p.disks[k], m) || Synced(p.disks[k], p.memory) <==> !(op.RenameInstance? && k == 1)))
  {
    hide Synced, WellIndexed, Resolves, ByName, ValidName, InUse, CanMove, Put, Drop, Move;
    hide WriteResource, PutResource, RemoveResource, DropResource;
    match op
    case CreateInstance(v) => CreateInstanceDisks(m, d, v);
    case UpdateInstance(v) => if PlanOf(m, d, op).Steps? { UpdateInstanceDisks(m, d, v); }
    case RenameInstance(key, v) => RenamePlanDisks(m, d, key, v, k);
    case DeleteInstance(key) => DeleteInstanceDisks(m, d, key);
    case StageSnapshot(dir) => if PlanOf(m, d, op).Steps? { StageSnapshotDisks(m, d, dir); }
    case CreateSnapshot(v, staged) => CreateSnapshotDisks(m, d, v, staged);
    case DeleteSnapshot(key) => DeleteSnapshotDisks(m, d, key);
    case CreateResource(kind, v) => PutResourceDisks(m, d, kind, v);
    case UpdateKernel(v) => PutResourceDisks(m, d, Kernels, v);
    case DeleteResource(kind, key) => DropResourceDisks(m, d, kind, Find(m.resources.Of(kind), key).value);
  }

  lemma RenamePlanDisks(m: Memory, d: Disk, key: string, v: Spec, k: nat)
    requires Indexed(m) && Synced(d, m)
    requires var p := PlanRenameInstance(m, d, key, v); !p.Refuse? && k < |p.disks|
    ensures var p := PlanRenameInstance(m, d, key, v);
            && (p.Blocked? ==> Synced(p.disks[k], m))
            && (p.Steps? && k == |p.disks| - 1 ==> Synced(p.disks[k], p.memory))
            && (p.Steps? && k < |p.disks| - 1 ==> (Synced(p.disks[k], m) <==> k != 1))
            && (p.Steps? ==> (Synced(p.disks[k], m) || Synced(p.disks[k], p.memory) <==> k != 1))
  {
    if PlanRenameInstance(m, d, key, v).Steps? {
      if v.name in m.instances.byName {
        RenameToItself(m, d, key, v);
      } else {
        hide Synced, Indexed, WellIndexed, Resolves, ValidName, CanMove, Move, Moved, WriteInstance;
        RenameInstanceDisks(m, d, key, v);
      }
    }
  }

  /** Whether an operation of which so many filesystem calls succeed stops halfway,
      as can be told before it is called. */
  ghost predicate Halfway(m: Memory, d: Disk, op: Op, done: nat)
    requires Indexed(m)
  {
    var p := PlanOf(m, d, op);
    p.Steps? && |p.disks| == 3 && done == 1 && StopsHalfway(op)
  }

  /** After an operation, the files hold what is in memory, whether it succeeded or
      failed, unless it stopped halfway. */
  lemma WriteThrough(s: State, op: Op, done: nat)
    requires Indexed(s.memory) && Allowed(s.memory, s.disk, op) && Synced(s.disk, s.memory)
    ensures var after := Attempt(s, op, done).0;
            Synced(after.disk, after.memory) <==> !Halfway(s.memory, s.disk, op, done)
  {
    hide Synced, Proper;
    var p := PlanOf(s.memory, s.disk, op);
    if !p.Refuse? {
      PlanDisks(s.memory, s.disk, op, if done < |p.disks| then done else |p.disks| - 1);
      if p.Steps? && StopsHalfway(op) {
        ThreeDisks(s.memory, s.disk, op);
      }
    }
  }

  lemma ThreeDisks(m: Memory, d: Disk, op: Op)
    requires Indexed(m) && StopsHalfway(op) && PlanOf(m, d, op).Steps?
    ensures |PlanOf(m, d, op).disks| == 1 || |PlanOf(m, d, op).disks| == 3
  {
  }

  /** What the loader makes of a disk. */
  ghost predicate LoadsAs(d: Disk, m: Memory) {
    && Loaded(d.instances, true, m.instances) && Loaded(d.snapshots, true, m.snapshots)
    && Loaded(d.resources.kernels, false, m.resources.kernels)
    && Loaded(d.resources.networks, false, m.resources.networks)
    && Loaded(d.resources.volumes, false, m.resources.volumes)
  }

  ghost predicate Loaded<B>(a: Area<B>, dirs: bool, t: Table<B>) {
    t.byName == Loadable(a, dirs) && (UniqueIDs(t.byName) ==> WellIndexed(t))
  }

  /** Opening the store again gives what was in memory, indexes and all. */
  lemma ReopenRestores(d: Disk, m: Memory, loaded: Memory)
    requires Indexed(m) && Synced(d, m) && LoadsAs(d, loaded)
    ensures loaded == m
  {
    hide Loadable, WellIndexed, UniqueIDs;
    LoadRestores(d.instances, true, m.instances, loaded.instances);
    LoadRestores(d.snapshots, true, m.snapshots, loaded.snapshots);
    LoadRestores(d.resources.kernels, false, m.resources.kernels, loaded.resources.kernels);
    LoadRestores(d.resources.networks, false, m.resources.networks, loaded.resources.networks);
    LoadRestores(d.resources.volumes, false, m.resources.volumes, loaded.resources.volumes);
  }

  /** A store just opened is in step with the files it has left, so runs go on. */
  lemma ReopenedIsSynced(d: Disk, m: Memory, stuck: set<string>)
    requires LoadsAs(d, m)
    ensures Synced(d.(instances := Swept(d.instances, stuck), snapshots := Swept(d.snapshots, stuck)), m)
  {
    hide Loadable, Swept;
    SweptLoadsTheSame(d.instances, stuck);
    SweptLoadsTheSame(d.snapshots, stuck);
  }

  /** A crash at any point of any operation but a rename, and then opening the store
      again, gives what was in memory before it or would have been after it. */
  lemma CrashIsAllOrNothing(m: Memory, d: Disk, op: Op, k: nat, loaded: Memory)
    requires Inv(m) && Allowed(m, d, op) && Synced(d, m)
    requires var p := PlanOf(m, d, op); !p.Refuse? && k < |p.disks| && LoadsAs(p.disks[k], loaded)
    requires !(op.RenameInstance? && k == 1)
    ensures loaded == m || (PlanOf(m, d, op).Steps? && loaded == PlanOf(m, d, op).memory)
  {
    hide Synced, Proper, LoadsAs, Integrity, Indexed;
    var p := PlanOf(m, d, op);
    PlanDisks(m, d, op, k);
    if Synced(p.disks[k], m) {
      ReopenRestores(p.disks[k], m, loaded);
    } else {
      PlanKeeps(m, d, op);
      ReopenRestores(p.disks[k], p.memory, loaded);
    }
  }

  /** A crash between a rename's move and its rewrite loses the instance, and
      nothing else. */
  lemma CrashedRenameLosesInstance(m: Memory, d: Disk, key: string, v: Spec, loaded: Memory)
    requires Inv(m) && Synced(d, m)
    requires var p := PlanRenameInstance(m, d, key, v); p.Steps? && |p.disks| == 3 && LoadsAs(p.disks[1], loaded)
    ensures loaded == m.(instances := Drop(m.instances, Find(m.instances, key).value))
  {
    hide Synced, LoadsAs, Integrity, Resolves, ValidName, CanMove, Moved, WriteInstance, Drop, Move;
    var v0 := Find(m.instances, key).value;
    assert v.name !in m.instances.byName;
    RenameInstanceDisks(m, d, key, v);
    DropKeeps(m.instances, v0);
    ReopenRestores(PlanRenameInstance(m, d, key, v).disks[1], m.(instances := Drop(m.instances, v0)), loaded);
  }

  /** So over every run in which none stopped halfway, opening the store again at
      the end gives what is in memory. */
  lemma {:induction false} RunIsDurable(states: seq<State>, calls: seq<Call>, loaded: Memory)
    requires IsRun(states, calls) && Inv(states[0].memory) && Synced(states[0].disk, states[0].memory)
    requires forall i :: 0 <= i < |calls| ==>
               && IsStep(states[i], calls[i], states[i + 1])
               && !Halfway(states[i].memory, states[i].disk, calls[i].op, calls[i].done)
    requires LoadsAs(states[|calls|].disk, loaded)
    ensures loaded == states[|calls|].memory
  {
    RunKeeps(states, calls);
    RunStaysSynced(states, calls);
    ReopenRestores(states[|calls|].disk, states[|calls|].memory, loaded);
  }

  lemma {:induction false} RunStaysSynced(states: seq<State>, calls: seq<Call>)
    requires IsRun(states, calls) && Inv(states[0].memory) && Synced(states[0].disk, states[0].memory)
    requires forall i :: 0 <= i < |calls| ==>
               && IsStep(states[i], calls[i], states[i + 1])
               && !Halfway(states[i].memory, states[i].disk, calls[i].op, calls[i].done)
    ensures Synced(states[|calls|].disk, states[|calls|].memory)
    decreases |calls|
  {
    hide Synced, Inv;
    if calls != [] {
      var last := |calls| - 1;
      var ss, cs := states[..|calls|], calls[..last];
      RunStarts(states, calls);
      forall i | 0 <= i < |cs|
        ensures IsStep(ss[i], cs[i], ss[i + 1]) && !Halfway(ss[i].memory, ss[i].disk, cs[i].op, cs[i].done)
      {
        assert IsStep(states[i], calls[i], states[i + 1]);
        assert !Halfway(states[i].memory, states[i].disk, calls[i].op, calls[i].done);
      }
      RunStaysSynced(ss, cs);
      assert IsStep(states[last], calls[last], states[last + 1]);
      WriteThrough(states[last], calls[last].op, calls[last].done);
    }
  }
}
