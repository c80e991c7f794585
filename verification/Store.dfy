/** The definition store (internal/filestore): instances, snapshots, networks,
    volumes and kernels, kept in memory and written through to files. An operation
    is a plan: the disks it passes through, one for each filesystem call that
    succeeds, and what is in memory once the last has. */
module Store {
  import opened Wrappers
  import opened Definitions

  /** The three kinds instances refer to, each kept as one file a definition. */
  datatype Kind = Kernels | Networks | Volumes

  datatype Resources<T> = Resources(kernels: T, networks: T, volumes: T) {
    function Of(kind: Kind): T {
      match kind case Kernels => kernels case Networks => networks case Volumes => volumes
    }

    function With(kind: Kind, t: T): (r: Resources<T>)
      ensures forall k: Kind :: r.Of(k) == if k == kind then t else Of(k)
    {
      match kind
      case Kernels => this.(kernels := t)
      case Networks => this.(networks := t)
      case Volumes => this.(volumes := t)
    }
  }

  datatype Mount = Mount(isVolume: bool, source: string)

  /** What an instance's definition names, and the rest of it. */
  datatype Wants = Wants(kernel: string, network: string, mounts: seq<Mount>, rest: string)

  type Spec = Named<Wants>

  /** A snapshot keeps the definition of its instance. */
  datatype Frozen = Frozen(instance: Spec, rest: string)

  type Snapshot = Named<Frozen>

  datatype Memory = Memory(instances: Table<Wants>, snapshots: Table<Frozen>, resources: Resources<Table<string>>)

  datatype Disk = Disk(instances: Area<Wants>, snapshots: Area<Frozen>, resources: Resources<Area<string>>)

  datatype State = State(memory: Memory, disk: Disk)

  datatype Error = InvalidArgument | AlreadyExists | NotFound | InvalidState | Filesystem

  datatype Op =
    | CreateInstance(spec: Spec)
    | UpdateInstance(spec: Spec)
    | RenameInstance(key: string, renamed: Spec)
    | DeleteInstance(key: string)
    | StageSnapshot(dir: string)
    | CreateSnapshot(snapshot: Snapshot, staged: string)
    | DeleteSnapshot(key: string)
    | CreateResource(kind: Kind, definition: Named<string>)
    | UpdateKernel(definition: Named<string>)
    | DeleteResource(kind: Kind, key: string)

  // ---------------------------------------------------------------- References

  /** The kernels, networks or volumes a definition names. */
  function References(w: Wants, kind: Kind): set<string> {
    match kind
    case Kernels => {w.kernel}
    case Networks => {w.network}
    case Volumes => set m | m in w.mounts && m.isVolume :: m.source
  }

  predicate Indexed(m: Memory) {
    && WellIndexed(m.instances) && WellIndexed(m.snapshots)
    && WellIndexed(m.resources.kernels) && WellIndexed(m.resources.networks) && WellIndexed(m.resources.volumes)
  }

  /** checkReferences: what the definition names can be found, by name or by ID. */
  ghost predicate Resolves(m: Memory, w: Wants)
    requires Indexed(m)
  {
    forall kind, r :: r in References(w, kind) ==> Find(m.resources.Of(kind), r).Some?
  }

  /** The instance or snapshot whose definition names this one, by its name. */
  ghost predicate InUse(m: Memory, kind: Kind, name: string) {
    || (exists n :: n in m.instances.byName && name in References(m.instances.byName[n].body, kind))
    || (exists n :: n in m.snapshots.byName && name in References(m.snapshots.byName[n].body.instance.body, kind))
  }

  // ---------------------------------------------------------------- Plans

  /** What an operation comes to: refused, with nothing done; the disks it goes
      through before a filesystem call that cannot succeed; or all the disks it goes
      through, and the memory after it. */
  datatype Plan = Refuse(error: Error) | Blocked(disks: seq<Disk>) | Steps(disks: seq<Disk>, memory: Memory)

  function WriteInstance(d: Disk, v: Spec): Disk {
    d.(instances := d.instances[v.name := Some(v)])
  }

  function MakeInstanceDir(d: Disk, name: string): Disk {
    if name in d.instances then d else d.(instances := d.instances[name := None])
  }

  ghost function PlanCreateInstance(m: Memory, d: Disk, v: Spec): Plan
    requires Indexed(m)
  {
    if !ValidName(v.name) then Refuse(InvalidArgument)
    else if Find(m.instances, v.name).Some? then Refuse(AlreadyExists)
    else if !Resolves(m, v.body) then Refuse(InvalidArgument)
    else Steps([d, MakeInstanceDir(d, v.name), WriteInstance(d, v)], m.(instances := Put(m.instances, v)))
  }

  /** A definition can only be written where its directory is. */
  ghost function PlanUpdateInstance(m: Memory, d: Disk, v: Spec): Plan
    requires Indexed(m)
  {
    if Find(m.instances, v.name).None? then Refuse(NotFound)
    else if !Resolves(m, v.body) then Refuse(InvalidArgument)
    else if v.name !in d.instances then Blocked([d])
    else Steps([d, WriteInstance(d, v)], m.(instances := Put(m.instances, v)))
  }

  /** A directory moves onto another only if that one is empty. */
  predicate CanMove<B>(a: Area<B>, from: string, to: string) {
    from in a && (to in a ==> a[to].None?)
  }

  function Moved<B>(a: Area<B>, from: string, to: string): Area<B>
    requires from in a
  {
    (a - {from})[to := a[from]]
  }

  ghost function PlanRenameInstance(m: Memory, d: Disk, key: string, v: Spec): Plan
    requires Indexed(m)
  {
    if Find(m.instances, key).None? then Refuse(NotFound)
    else if !Resolves(m, v.body) || !ValidName(v.name) then Refuse(InvalidArgument)
    else
      var current := Find(m.instances, key).value;
      if v.name == current.name then Steps([d], m)
      else if Find(m.instances, v.name).Some? then Refuse(AlreadyExists)
      else if !CanMove(d.instances, current.name, v.name) then Blocked([d])
      else
        var moved := d.(instances := Moved(d.instances, current.name, v.name));
        Steps([d, moved, WriteInstance(moved, v)], m.(instances := Move(m.instances, current, v)))
  }

  /** Removing a directory takes its definition, with its other files, first. */
  function Emptied<B>(a: Area<B>, name: string): Area<B> {
    if name in a then a[name := None] else a
  }

  ghost function PlanDeleteInstance(m: Memory, d: Disk, key: string): Plan
    requires Indexed(m)
  {
    if Find(m.instances, key).None? then Refuse(NotFound)
    else
      var v := Find(m.instances, key).value;
      Steps([d, d.(instances := Emptied(d.instances, v.name)), d.(instances := d.instances - {v.name})],
            m.(instances := Drop(m.instances, v)))
  }

  /** A new directory: a name another has is not given again. */
  ghost function PlanStageSnapshot(m: Memory, d: Disk, dir: string): Plan {
    if dir in d.snapshots || !IsStaging(dir) then Blocked([d])
    else Steps([d, d.(snapshots := d.snapshots[dir := None])], m)
  }

  ghost function PlanCreateSnapshot(m: Memory, d: Disk, v: Snapshot, staged: string): Plan
    requires Indexed(m)
  {
    if !ValidName(v.name) then Refuse(InvalidArgument)
    else if Find(m.snapshots, v.name).Some? then Refuse(AlreadyExists)
    else if !Resolves(m, v.body.instance.body) then Refuse(InvalidArgument)
    else if staged !in d.snapshots then Blocked([d])
    else
      var written := d.(snapshots := d.snapshots[staged := Some(v)]);
      if !CanMove(written.snapshots, staged, v.name) then Blocked([d, written])
      else
        var moved := d.(snapshots := Moved(written.snapshots, staged, v.name));
        Steps([d, written, moved], m.(snapshots := Put(m.snapshots, v)))
  }

  ghost function PlanDeleteSnapshot(m: Memory, d: Disk, key: string): Plan
    requires Indexed(m)
  {
    if Find(m.snapshots, key).None? then Refuse(NotFound)
    else
      var v := Find(m.snapshots, key).value;
      Steps([d, d.(snapshots := Emptied(d.snapshots, v.name)), d.(snapshots := d.snapshots - {v.name})],
            m.(snapshots := Drop(m.snapshots, v)))
  }

  function WriteResource(d: Disk, kind: Kind, v: Named<string>): Disk {
    d.(resources := d.resources.With(kind, d.resources.Of(kind)[v.name := Some(v)]))
  }

  function PutResource(m: Memory, kind: Kind, v: Named<string>): Memory {
    m.(resources := m.resources.With(kind, Put(m.resources.Of(kind), v)))
  }

  ghost function PlanCreateResource(m: Memory, d: Disk, kind: Kind, v: Named<string>): Plan
    requires Indexed(m)
  {
    if !ValidName(v.name) then Refuse(InvalidArgument)
    else if Find(m.resources.Of(kind), v.name).Some? then Refuse(AlreadyExists)
    else Steps([d, WriteResource(d, kind, v)], PutResource(m, kind, v))
  }

  ghost function PlanUpdateKernel(m: Memory, d: Disk, v: Named<string>): Plan
    requires Indexed(m)
  {
    if Find(m.resources.kernels, v.name).None? then Refuse(NotFound)
    else Steps([d, WriteResource(d, Kernels, v)], PutResource(m, Kernels, v))
  }

  function RemoveResource(d: Disk, kind: Kind, name: string): Disk {
    d.(resources := d.resources.With(kind, d.resources.Of(kind) - {name}))
  }

  function DropResource(m: Memory, kind: Kind, v: Named<string>): Memory {
    m.(resources := m.resources.With(kind, Drop(m.resources.Of(kind), v)))
  }

  ghost function PlanDeleteResource(m: Memory, d: Disk, kind: Kind, key: string): Plan
    requires Indexed(m)
  {
    if Find(m.resources.Of(kind), key).None? then Refuse(NotFound)
    else
      var v := Find(m.resources.Of(kind), key).value;
      if InUse(m, kind, v.name) then Refuse(InvalidState)
      else Steps([d, RemoveResource(d, kind, v.name)], DropResource(m, kind, v))
  }

  ghost function PlanOf(m: Memory, d: Disk, op: Op): (p: Plan)
    requires Indexed(m)
    ensures !p.Refuse? ==> |p.disks| >= 1 && p.disks[0] == d
  {
    match op
    case CreateInstance(v) => PlanCreateInstance(m, d, v)
    case UpdateInstance(v) => PlanUpdateInstance(m, d, v)
    case RenameInstance(key, v) => PlanRenameInstance(m, d, key, v)
    case DeleteInstance(key) => PlanDeleteInstance(m, d, key)
    case StageSnapshot(dir) => PlanStageSnapshot(m, d, dir)
    case CreateSnapshot(v, staged) => PlanCreateSnapshot(m, d, v, staged)
    case DeleteSnapshot(key) => PlanDeleteSnapshot(m, d, key)
    case CreateResource(kind, v) => PlanCreateResource(m, d, kind, v)
    case UpdateKernel(v) => PlanUpdateKernel(m, d, v)
    case DeleteResource(kind, key) => PlanDeleteResource(m, d, kind, key)
  }

  /** Carrying a plan out when so many of its filesystem calls succeed. Memory
      changes only once all have; an error leaves the disk where it got to. */
  function Carried(s: State, p: Plan, done: nat): (State, Option<Error>)
    requires !p.Refuse? ==> |p.disks| >= 1
  {
    match p
    case Refuse(error) => (s, Some(error))
    case Blocked(disks) => (State(s.memory, disks[if done < |disks| then done else |disks| - 1]), Some(Filesystem))
    case Steps(disks, memory) =>
      if done < |disks| - 1 then (State(s.memory, disks[done]), Some(Filesystem))
      else (State(memory, disks[|disks| - 1]), None)
  }

  /** One operation, of which so many filesystem calls succeed. */
  ghost function Attempt(s: State, op: Op, done: nat): (State, Option<Error>)
    requires Indexed(s.memory)
  {
    Carried(s, PlanOf(s.memory, s.disk, op), done)
  }
}
