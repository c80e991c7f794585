/** What every operation of the definition store comes to, for who calls it: which
    definition a lookup gives afterwards, that every other one is as it was, and each
    error exactly when it is due. References are said field by field. */
module StoreOutcomes {
  import opened Wrappers
  import opened Definitions
  import opened Store
  import opened StoreProofs

  // ---------------------------------------------------------------- Lookups and references

  /** Something has this name or ID. */
  ghost predicate Found<B>(t: Table<B>, key: string) {
    exists n :: n in t.byName && (n == key || (t.byName[n].id == key && key != ""))
  }

  /** What is meant by the key: what has it for a name, or else for an ID. */
  ghost predicate IsFor<B>(t: Table<B>, key: string, v: Named<B>) {
    && v.name in t.byName && t.byName[v.name] == v
    && (if key in t.byName then v.name == key else v.id == key && key != "")
  }

  lemma FindIs<B>(t: Table<B>, key: string)
    requires WellIndexed(t)
    ensures Find(t, key).Some? <==> Found(t, key)
    ensures Find(t, key).Some? ==> IsFor(t, key, Find(t, key).value)
  {
  }

  /** The kernel, the network and every volume mounted can be found. */
  ghost predicate AllFound(m: Memory, w: Wants) {
    && Found(m.resources.kernels, w.kernel)
    && Found(m.resources.networks, w.network)
    && forall i :: 0 <= i < |w.mounts| && w.mounts[i].isVolume ==> Found(m.resources.volumes, w.mounts[i].source)
  }

  /** The definition boots this kernel, is on this network, or mounts this volume. */
  predicate Uses(w: Wants, kind: Kind, name: string) {
    match kind
    case Kernels => w.kernel == name
    case Networks => w.network == name
    case Volumes => exists i :: 0 <= i < |w.mounts| && w.mounts[i].isVolume && w.mounts[i].source == name
  }

  ghost predicate IsUsed(m: Memory, kind: Kind, name: string) {
    || (exists n :: n in m.instances.byName && Uses(m.instances.byName[n].body, kind, name))
    || (exists n :: n in m.snapshots.byName && Uses(m.snapshots.byName[n].body.instance.body, kind, name))
  }

  lemma ReferencesAre(w: Wants, kind: Kind, name: string)
    ensures name in References(w, kind) <==> Uses(w, kind, name)
  {
    if kind.Volumes? && Uses(w, kind, name) {
      var i :| 0 <= i < |w.mounts| && w.mounts[i].isVolume && w.mounts[i].source == name;
      assert w.mounts[i] in w.mounts;
    }
  }

  lemma ResolvesIffFound(m: Memory, w: Wants)
    requires Indexed(m)
    ensures Resolves(m, w) <==> AllFound(m, w)
  {
    hide References, Find, Found;
    forall kind: Kind, r: string
      ensures r in References(w, kind) <==> Uses(w, kind, r)
      ensures Find(m.resources.Of(kind), r).Some? <==> Found(m.resources.Of(kind), r)
    {
      ReferencesAre(w, kind, r);
      FindIs(m.resources.Of(kind), r);
    }
    if Resolves(m, w) {
      assert Uses(w, Kernels, w.kernel) && Uses(w, Networks, w.network);
      forall i | 0 <= i < |w.mounts| && w.mounts[i].isVolume
        ensures Found(m.resources.volumes, w.mounts[i].source)
      {
        assert Uses(w, Volumes, w.mounts[i].source);
        assert Find(m.resources.Of(Volumes), w.mounts[i].source).Some?;
      }
      assert Find(m.resources.Of(Kernels), w.kernel).Some? && Find(m.resources.Of(Networks), w.network).Some?;
    }
    if AllFound(m, w) {
      forall kind: Kind, r: string | r in References(w, kind)
        ensures Find(m.resources.Of(kind), r).Some?
      {
        assert Found(m.resources.Of(kind), r);
      }
    }
  }

  lemma InUseIffUsed(m: Memory, kind: Kind, name: string)
    ensures InUse(m, kind, name) <==> IsUsed(m, kind, name)
  {
    hide References, Uses;
    forall w: Wants
      ensures name in References(w, kind) <==> Uses(w, kind, name)
    {
      ReferencesAre(w, kind, name);
    }
  }

  /** What the definition names is there, by name. */
  ghost predicate IsServed(m: Memory, w: Wants) {
    && w.kernel in m.resources.kernels.byName
    && w.network in m.resources.networks.byName
    && forall i :: 0 <= i < |w.mounts| && w.mounts[i].isVolume ==> w.mounts[i].source in m.resources.volumes.byName
  }

  lemma PresentIsServed(m: Memory, w: Wants)
    ensures Present(m.resources, w) <==> IsServed(m, w)
  {
    hide References;
    forall kind: Kind, r: string
      ensures r in References(w, kind) <==> Uses(w, kind, r)
    {
      ReferencesAre(w, kind, r);
    }
    if Present(m.resources, w) {
      assert Uses(w, Kernels, w.kernel) && Uses(w, Networks, w.network);
      assert w.kernel in m.resources.Of(Kernels).byName && w.network in m.resources.Of(Networks).byName;
      forall i | 0 <= i < |w.mounts| && w.mounts[i].isVolume
        ensures w.mounts[i].source in m.resources.volumes.byName
      {
        assert Uses(w, Volumes, w.mounts[i].source);
        assert w.mounts[i].source in m.resources.Of(Volumes).byName;
      }
    }
  }

  /** Integrity, field by field: every stored instance's and snapshot's kernel, network
      and volumes are there. */
  lemma IntegrityIsServed(m: Memory)
    ensures Integrity(m) <==>
            && (forall n :: n in m.instances.byName ==> IsServed(m, m.instances.byName[n].body))
            && (forall n :: n in m.snapshots.byName ==> IsServed(m, m.snapshots.byName[n].body.instance.body))
  {
    hide Present, IsServed;
    forall w: Wants
      ensures Present(m.resources, w) <==> IsServed(m, w)
    {
      PresentIsServed(m, w);
    }
  }

  /** So over every run. */
  lemma RunServes(states: seq<State>, calls: seq<Call>)
    requires IsRun(states, calls) && Inv(states[0].memory)
    ensures var m := states[|calls|].memory;
            && (forall n :: n in m.instances.byName ==> IsServed(m, m.instances.byName[n].body))
            && (forall n :: n in m.snapshots.byName ==> IsServed(m, m.snapshots.byName[n].body.instance.body))
  {
    hide IsServed, Integrity;
    RunKeeps(states, calls);
    IntegrityIsServed(states[|calls|].memory);
  }

  // ---------------------------------------------------------------- What is stored

  /** The name leads where it did. */
  ghost predicate SameAt<B>(before: Table<B>, after: Table<B>, name: string) {
    && (name in after.byName <==> name in before.byName)
    && (name in after.byName ==> after.byName[name] == before.byName[name])
  }

  /** The definition is what its name leads to; every other name leads where it did. */
  ghost predicate Stores<B>(before: Table<B>, after: Table<B>, v: Named<B>) {
    && v.name in after.byName && after.byName[v.name] == v
    && forall n :: n != v.name ==> SameAt(before, after, n)
  }

  /** Nothing has its name or its ID; every other name leads where it did. */
  ghost predicate Forgets<B>(before: Table<B>, after: Table<B>, v: Named<B>) {
    && v.name !in after.byName
    && (forall n :: n in after.byName ==> after.byName[n].id != v.id || v.id == "")
    && forall n :: n != v.name ==> SameAt(before, after, n)
  }

  /** The new name leads to the renamed definition and the old one nowhere; every
      other leads where it did. */
  ghost predicate Renames<B>(before: Table<B>, after: Table<B>, previous: string, v: Named<B>) {
    && v.name in after.byName && after.byName[v.name] == v && previous !in after.byName
    && forall n :: n != v.name && n != previous ==> SameAt(before, after, n)
  }

  lemma PutStores<B>(t: Table<B>, v: Named<B>)
    ensures Stores(t, Put(t, v), v)
  {
  }

  lemma DropForgets<B>(t: Table<B>, v: Named<B>)
    requires WellIndexed(t) && v.name in t.byName && t.byName[v.name] == v
    ensures Forgets(t, Drop(t, v), v)
  {
    WellIndexedIsUnique(t);
  }

  lemma MoveRenames<B>(t: Table<B>, current: Named<B>, v: Named<B>)
    requires v.name != current.name
    ensures Renames(t, Move(t, current, v), current.name, v)
  {
  }

  /** What a lookup then gives. A name nothing has any more can still be found, as
      the ID of something else. */
  lemma LookupAfter<B>(before: Table<B>, after: Table<B>, v: Named<B>, previous: string)
    requires WellIndexed(after)
    ensures Stores(before, after, v) || Renames(before, after, previous, v) ==>
              && Find(after, v.name) == Some(v)
              && (v.id != "" && v.id !in after.byName ==> Find(after, v.id) == Some(v))
    ensures Renames(before, after, previous, v) ==>
              Find(after, previous).None? || Find(after, previous).value.id == previous
    ensures Forgets(before, after, v) ==>
              && (Find(after, v.name).None? || Find(after, v.name).value.id == v.name)
              && (v.id != "" && v.id !in after.byName ==> Find(after, v.id).None?)
  {
    hide Find;
    FindIs(after, v.name);
    FindIs(after, v.id);
    FindIs(after, previous);
  }

  /** The other kinds of definition are as they were. */
  predicate OnlyInstances(before: Memory, after: Memory) {
    after.snapshots == before.snapshots && after.resources == before.resources
  }

  predicate OnlySnapshots(before: Memory, after: Memory) {
    after.instances == before.instances && after.resources == before.resources
  }

  predicate OnlyKind(before: Memory, after: Memory, kind: Kind) {
    && after.instances == before.instances && after.snapshots == before.snapshots
    && (kind != Kernels ==> after.resources.kernels == before.resources.kernels)
    && (kind != Networks ==> after.resources.networks == before.resources.networks)
    && (kind != Volumes ==> after.resources.volumes == before.resources.volumes)
  }

  // ---------------------------------------------------------------- Instances

  /** A directory can be moved to its new place: it is there, and there is none in
      that place with a definition in it. */
  predicate Movable<B>(a: Area<B>, from: string, to: string) {
    from in a && !(to in a && a[to].Some?)
  }

  ghost predicate CreatesInstance(s: State, v: Spec, done: nat, t: State, e: Option<Error>) {
    var m := s.memory;
    && (e == Some(InvalidArgument) <==>
        !ValidName(v.name) || (!Found(m.instances, v.name) && !AllFound(m, v.body)))
    && (e == Some(AlreadyExists) <==> ValidName(v.name) && Found(m.instances, v.name))
    && (e == None <==> ValidName(v.name) && !Found(m.instances, v.name) && AllFound(m, v.body) && done >= 2)
    && e != Some(NotFound) && e != Some(InvalidState)
    && (e == None ==> Stores(m.instances, t.memory.instances, v) && OnlyInstances(m, t.memory))
    && (e != None ==> t.memory == m)
  }

  lemma CreateInstanceOutcome(s: State, v: Spec, done: nat)
    requires Indexed(s.memory)
    ensures var (t, e) := Attempt(s, CreateInstance(v), done); CreatesInstance(s, v, done, t, e)
  {
    hide Find, Found, Resolves, AllFound, ValidName, WellIndexed, Put, Stores;
    FindIs(s.memory.instances, v.name);
    ResolvesIffFound(s.memory, v.body);
    PutStores(s.memory.instances, v);
  }

  ghost predicate UpdatesInstance(s: State, v: Spec, done: nat, t: State, e: Option<Error>) {
    var m := s.memory;
    && (e == Some(NotFound) <==> !Found(m.instances, v.name))
    && (e == Some(InvalidArgument) <==> Found(m.instances, v.name) && !AllFound(m, v.body))
    && (e == None <==>
        Found(m.instances, v.name) && AllFound(m, v.body) && v.name in s.disk.instances && done >= 1)
    && e != Some(AlreadyExists) && e != Some(InvalidState)
    && (e == None ==> Stores(m.instances, t.memory.instances, v) && OnlyInstances(m, t.memory))
    && (e != None ==> t.memory == m)
  }

  lemma UpdateInstanceOutcome(s: State, v: Spec, done: nat)
    requires Indexed(s.memory)
    ensures var (t, e) := Attempt(s, UpdateInstance(v), done); UpdatesInstance(s, v, done, t, e)
  {
    hide Find, Found, Resolves, AllFound, WellIndexed, Put, Stores;
    FindIs(s.memory.instances, v.name);
    ResolvesIffFound(s.memory, v.body);
    PutStores(s.memory.instances, v);
  }

  /** A rename to the name it has does nothing. */
  ghost predicate RenamesInstance(s: State, key: string, v: Spec, done: nat, t: State, e: Option<Error>) {
    var m := s.memory;
    var accepted := Found(m.instances, key) && ValidName(v.name) && AllFound(m, v.body);
    && (e == Some(NotFound) <==> !Found(m.instances, key))
    && (e == Some(InvalidArgument) <==> Found(m.instances, key) && !(ValidName(v.name) && AllFound(m, v.body)))
    && e != Some(InvalidState)
    && (e != None ==> t.memory == m)
    && forall current: Spec :: accepted && IsFor(m.instances, key, current) ==>
         var same := v.name == current.name;
         && (e == Some(AlreadyExists) <==> !same && Found(m.instances, v.name))
         && (e == None <==>
             same || (!Found(m.instances, v.name) && Movable(s.disk.instances, current.name, v.name) && done >= 2))
         && (same ==> t == s)
         && (e == None && !same ==>
             && Renames(m.instances, t.memory.instances, current.name, v) && OnlyInstances(m, t.memory)
             && current.name !in t.disk.instances)
  }

  lemma RenameInstanceOutcome(s: State, key: string, v: Spec, done: nat)
    requires Indexed(s.memory)
    ensures var (t, e) := Attempt(s, RenameInstance(key, v), done); RenamesInstance(s, key, v, done, t, e)
  {
    hide Find, Found, Resolves, AllFound, ValidName, WellIndexed, Move, Renames, IsFor;
    var m := s.memory;
    FindIs(m.instances, key);
    FindIs(m.instances, v.name);
    ResolvesIffFound(m, v.body);
    forall current: Spec | IsFor(m.instances, key, current)
      ensures Find(m.instances, key) == Some(current)
      ensures v.name != current.name ==> Renames(m.instances, Move(m.instances, current, v), current.name, v)
    {
      OneIsFor(m.instances, key, current);
      if v.name != current.name {
        MoveRenames(m.instances, current, v);
      }
    }
  }

  lemma OneIsFor<B>(t: Table<B>, key: string, v: Named<B>)
    requires WellIndexed(t) && IsFor(t, key, v)
    ensures Find(t, key) == Some(v)
  {
  }

  /** What a delete comes to, of an instance or of a snapshot. */
  ghost predicate Deletes<B(!new)>(before: Table<B>, key: string, done: nat, after: Table<B>, left: Area<B>,
                                   e: Option<Error>)
  {
    && (e == Some(NotFound) <==> !Found(before, key))
    && (e == None <==> Found(before, key) && done >= 2)
    && (e == None || e == Some(NotFound) || e == Some(Filesystem))
    && (e != None ==> after == before)
    && forall v: Named<B> :: e == None && IsFor(before, key, v) ==> Forgets(before, after, v) && v.name !in left
  }

  lemma DropDeletes<B(!new)>(t: Table<B>, key: string)
    requires WellIndexed(t)
    ensures forall v: Named<B> :: IsFor(t, key, v) ==> Find(t, key) == Some(v) && Forgets(t, Drop(t, v), v)
  {
    hide Find, Drop, Forgets, WellIndexed;
    forall v: Named<B> | IsFor(t, key, v)
      ensures Find(t, key) == Some(v) && Forgets(t, Drop(t, v), v)
    {
      OneIsFor(t, key, v);
      DropForgets(t, v);
    }
  }

  lemma DeleteInstanceOutcome(s: State, key: string, done: nat)
    requires Indexed(s.memory)
    ensures var (t, e) := Attempt(s, DeleteInstance(key), done);
            && Deletes(s.memory.instances, key, done, t.memory.instances, t.disk.instances, e)
            && OnlyInstances(s.memory, t.memory)
  {
    hide Find, Found, WellIndexed, Drop, Forgets, IsFor;
    FindIs(s.memory.instances, key);
    DropDeletes(s.memory.instances, key);
  }

  // ---------------------------------------------------------------- Snapshots

  /** A directory for a snapshot's files, of which there was none. */
  predicate StagesSnapshot(s: State, dir: string, done: nat, t: State, e: Option<Error>) {
    && (e == None <==> IsStaging(dir) && dir !in s.disk.snapshots && done >= 1)
    && (e != None ==> e == Some(Filesystem) && t == s)
    && (e == None ==> dir in t.disk.snapshots && s == t.(disk := t.disk.(snapshots := t.disk.snapshots - {dir})))
  }

  lemma StageSnapshotOutcome(s: State, dir: string, done: nat)
    requires Indexed(s.memory)
    ensures var (t, e) := Attempt(s, StageSnapshot(dir), done); StagesSnapshot(s, dir, done, t, e)
  {
    hide WellIndexed;
    if dir !in s.disk.snapshots {
      assert s.disk.snapshots[dir := None] - {dir} == s.disk.snapshots;
    }
  }

  /** The directory the snapshot's files were put together in becomes its own. */
  ghost predicate CreatesSnapshot(s: State, v: Snapshot, staged: string, done: nat, t: State, e: Option<Error>) {
    var m := s.memory;
    var refs := AllFound(m, v.body.instance.body);
    && (e == Some(InvalidArgument) <==> !ValidName(v.name) || (!Found(m.snapshots, v.name) && !refs))
    && (e == Some(AlreadyExists) <==> ValidName(v.name) && Found(m.snapshots, v.name))
    && e != Some(NotFound) && e != Some(InvalidState)
    && (v.name != staged ==>
        (e == None <==>
         && ValidName(v.name) && !Found(m.snapshots, v.name) && refs
         && Movable(s.disk.snapshots, staged, v.name) && done >= 2))
    && (e == None ==> Stores(m.snapshots, t.memory.snapshots, v) && OnlySnapshots(m, t.memory))
    && (e == None && v.name != staged ==> staged !in t.disk.snapshots)
    && (e != None ==> t.memory == m)
  }

  lemma CreateSnapshotOutcome(s: State, v: Snapshot, staged: string, done: nat)
    requires Indexed(s.memory)
    ensures var (t, e) := Attempt(s, CreateSnapshot(v, staged), done); CreatesSnapshot(s, v, staged, done, t, e)
  {
    hide Find, Found, Resolves, AllFound, ValidName, WellIndexed, Put, Stores;
    FindIs(s.memory.snapshots, v.name);
    ResolvesIffFound(s.memory, v.body.instance.body);
    PutStores(s.memory.snapshots, v);
  }

  lemma DeleteSnapshotOutcome(s: State, key: string, done: nat)
    requires Indexed(s.memory)
    ensures var (t, e) := Attempt(s, DeleteSnapshot(key), done);
            && Deletes(s.memory.snapshots, key, done, t.memory.snapshots, t.disk.snapshots, e)
            && OnlySnapshots(s.memory, t.memory)
  {
    hide Find, Found, WellIndexed, Drop, Forgets, IsFor;
    FindIs(s.memory.snapshots, key);
    DropDeletes(s.memory.snapshots, key);
  }

  // ---------------------------------------------------------------- Networks, volumes and kernels

  ghost predicate CreatesResource(s: State, kind: Kind, v: Named<string>, done: nat, t: State, e: Option<Error>) {
    var (before, after) := (s.memory.resources.Of(kind), t.memory.resources.Of(kind));
    && (e == Some(InvalidArgument) <==> !ValidName(v.name))
    && (e == Some(AlreadyExists) <==> ValidName(v.name) && Found(before, v.name))
    && (e == None <==> ValidName(v.name) && !Found(before, v.name) && done >= 1)
    && e != Some(NotFound) && e != Some(InvalidState)
    && (e == None ==> Stores(before, after, v) && OnlyKind(s.memory, t.memory, kind))
    && (e != None ==> t.memory == s.memory)
  }

  lemma CreateResourceOutcome(s: State, kind: Kind, v: Named<string>, done: nat)
    requires Indexed(s.memory)
    ensures var (t, e) := Attempt(s, CreateResource(kind, v), done); CreatesResource(s, kind, v, done, t, e)
  {
    hide Find, Found, ValidName, WellIndexed, Put, Stores;
    FindIs(s.memory.resources.Of(kind), v.name);
    PutStores(s.memory.resources.Of(kind), v);
  }

  ghost predicate UpdatesKernel(s: State, v: Named<string>, done: nat, t: State, e: Option<Error>) {
    var (before, after) := (s.memory.resources.kernels, t.memory.resources.kernels);
    && (e == Some(NotFound) <==> !Found(before, v.name))
    && (e == None <==> Found(before, v.name) && done >= 1)
    && (e == None || e == Some(NotFound) || e == Some(Filesystem))
    && (e == None ==> Stores(before, after, v) && OnlyKind(s.memory, t.memory, Kernels))
    && (e != None ==> t.memory == s.memory)
  }

  lemma UpdateKernelOutcome(s: State, v: Named<string>, done: nat)
    requires Indexed(s.memory)
    ensures var (t, e) := Attempt(s, UpdateKernel(v), done); UpdatesKernel(s, v, done, t, e)
  {
    hide Find, Found, WellIndexed, Put, Stores;
    FindIs(s.memory.resources.kernels, v.name);
    PutStores(s.memory.resources.kernels, v);
  }

  /** One that an instance or a snapshot names, by its name, stays. */
  ghost predicate DeletesResource(s: State, kind: Kind, key: string, done: nat, t: State, e: Option<Error>) {
    var (before, after) := (s.memory.resources.Of(kind), t.memory.resources.Of(kind));
    && (e == Some(NotFound) <==> !Found(before, key))
    && e != Some(InvalidArgument) && e != Some(AlreadyExists)
    && (e != None ==> t.memory == s.memory)
    && forall v: Named<string> :: IsFor(before, key, v) ==>
         && (e == Some(InvalidState) <==> IsUsed(s.memory, kind, v.name))
         && (e == None <==> !IsUsed(s.memory, kind, v.name) && done >= 1)
         && (e == None ==> Forgets(before, after, v) && OnlyKind(s.memory, t.memory, kind))
  }

  lemma DeleteResourceOutcome(s: State, kind: Kind, key: string, done: nat)
    requires Indexed(s.memory)
    ensures var (t, e) := Attempt(s, DeleteResource(kind, key), done); DeletesResource(s, kind, key, done, t, e)
  {
    hide Find, Found, WellIndexed, Drop, Forgets, IsFor, InUse, IsUsed;
    FindIs(s.memory.resources.Of(kind), key);
    DropDeletes(s.memory.resources.Of(kind), key);
    forall name: string
      ensures InUse(s.memory, kind, name) <==> IsUsed(s.memory, kind, name)
    {
      InUseIffUsed(s.memory, kind, name);
    }
  }
}
