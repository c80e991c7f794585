/** The parts every kind of definition in the store shares (internal/filestore): a
    table in memory, by name and by ID, and the directory it is written to. */
module Definitions {
  import opened Wrappers

  /** A definition: its name, its ID, and all the rest of it. */
  datatype Named<+B> = Named(name: string, id: string, body: B)

  // ---------------------------------------------------------------- Names

  predicate IsAlphanumeric(c: char) {
    'A' <= c <= 'Z' || 'a' <= c <= 'z' || '0' <= c <= '9'
  }

  /** The dot-separated parts of a name. */
  function Parts(name: string): (parts: seq<string>)
    ensures |parts| >= 1
  {
    if name == "" then [""]
    else
      var rest := Parts(name[1..]);
      if name[0] == '.' then [""] + rest else [[name[0]] + rest[0]] + rest[1..]
  }

  predicate ValidPart(part: string) {
    && 1 <= |part| <= 63
    && IsAlphanumeric(part[0]) && IsAlphanumeric(part[|part| - 1])
    && forall i :: 0 <= i < |part| ==> IsAlphanumeric(part[i]) || part[i] == '-'
  }

  /** naming.Validate. */
  predicate ValidName(name: string) {
    |name| <= 253 && forall i :: 0 <= i < |Parts(name)| ==> ValidPart(Parts(name)[i])
  }

  // The same as the pattern has it: labels joined by dots, each a letter or digit, or
  // two with at most 61 letters, digits or hyphens between them.

  predicate IsLetterOrDigit(c: char) {
    48 <= c as int <= 57 || 65 <= c as int <= 90 || 97 <= c as int <= 122
  }

  ghost predicate IsLabel(s: string) {
    || (exists c :: s == [c] && IsLetterOrDigit(c))
    || (exists first, mid, last :: s == [first] + mid + [last] && IsSpan(first, mid, last))
  }

  predicate IsSpan(first: char, mid: string, last: char) {
    && IsLetterOrDigit(first) && IsLetterOrDigit(last)
    && |mid| <= 61 && forall i :: 0 <= i < |mid| ==> IsLetterOrDigit(mid[i]) || mid[i] == '-'
  }

  function Dotted(labels: seq<string>): string
    requires |labels| >= 1
  {
    if |labels| == 1 then labels[0] else labels[0] + "." + Dotted(labels[1..])
  }

  ghost predicate IsDotted(name: string) {
    exists labels: seq<string> :: |labels| >= 1 && Dotted(labels) == name && AreLabels(labels)
  }

  ghost predicate AreLabels(labels: seq<string>) {
    forall i :: 0 <= i < |labels| ==> IsLabel(labels[i])
  }

  lemma SpanIsPart(first: char, mid: string, last: char)
    ensures IsSpan(first, mid, last) <==> ValidPart([first] + mid + [last])
  {
    var s := [first] + mid + [last];
    assert s[0] == first && s[|s| - 1] == last && |s| == |mid| + 2;
    assert forall i :: 0 <= i < |mid| ==> mid[i] == s[i + 1];
  }

  lemma LabelIsPart(s: string)
    ensures IsLabel(s) <==> ValidPart(s)
  {
    if |s| >= 2 {
      hide IsSpan, ValidPart, IsLetterOrDigit;
      forall first, mid, last | s == [first] + mid + [last]
        ensures IsSpan(first, mid, last) <==> ValidPart(s)
      {
        SpanIsPart(first, mid, last);
      }
      assert s == [s[0]] + s[1..|s| - 1] + [s[|s| - 1]];
    } else if |s| == 1 {
      assert s == [s[0]];
    }
  }

  lemma {:induction false} PartsJoin(name: string)
    ensures Dotted(Parts(name)) == name
  {
    if name != "" {
      PartsJoin(name[1..]);
      var rest := Parts(name[1..]);
      assert name == [name[0]] + name[1..];
      if name[0] == '.' {
        assert ([""] + rest)[1..] == rest;
      } else {
        var parts := [[name[0]] + rest[0]] + rest[1..];
        assert parts[1..] == rest[1..];
      }
    }
  }

  lemma {:induction false} PartsOfLabel(part: string, after: string)
    requires '.' !in part
    ensures Parts(part) == [part] && Parts(part + "." + after) == [part] + Parts(after)
  {
    var name := part + "." + after;
    if part == "" {
      assert name == ['.'] + after && name[1..] == after;
    } else {
      PartsOfLabel(part[1..], after);
      assert part == [part[0]] + part[1..];
      assert name[1..] == part[1..] + "." + after && name[0] == part[0];
      assert ([part[1..]] + Parts(after))[1..] == Parts(after);
      assert [part[1..]][1..] == [];
    }
  }

  lemma {:induction false} JoinParts(labels: seq<string>)
    requires |labels| >= 1 && forall i :: 0 <= i < |labels| ==> '.' !in labels[i]
    ensures Parts(Dotted(labels)) == labels
  {
    assert labels == [labels[0]] + labels[1..];
    if |labels| == 1 {
      PartsOfLabel(labels[0], "");
    } else {
      JoinParts(labels[1..]);
      PartsOfLabel(labels[0], Dotted(labels[1..]));
    }
  }

  /** A name is valid exactly when the pattern matches it and it is not too long. */
  lemma ValidNameIff(name: string)
    ensures ValidName(name) <==> |name| <= 253 && IsDotted(name)
  {
    hide IsLabel, ValidPart, Parts, Dotted;
    forall s: string
      ensures IsLabel(s) <==> ValidPart(s)
    {
      LabelIsPart(s);
    }
    PartsJoin(name);
    assert ValidName(name) ==> |name| <= 253 && AreLabels(Parts(name));
    if IsDotted(name) {
      var labels :| |labels| >= 1 && Dotted(labels) == name && AreLabels(labels);
      forall i | 0 <= i < |labels|
        ensures '.' !in labels[i]
      {
        NoDots(labels[i]);
      }
      JoinParts(labels);
    }
  }

  lemma NoDots(part: string)
    requires ValidPart(part)
    ensures '.' !in part
  {
  }

  const STAGING_PREFIX := ".staging-"

  predicate IsStaging(name: string) {
    STAGING_PREFIX <= name
  }

  lemma ValidIsNotStaging(name: string)
    requires ValidName(name)
    ensures name != "" && !IsStaging(name)
  {
    assert ValidPart(Parts(name)[0]);
  }

  // ---------------------------------------------------------------- In memory

  /** One kind's definitions by name, and their names by ID. */
  datatype Table<B> = Table(byName: map<string, Named<B>>, names: map<string, string>)

  function Put<B>(t: Table<B>, v: Named<B>): Table<B> {
    Table(t.byName[v.name := v], if v.id != "" then t.names[v.id := v.name] else t.names)
  }

  function Drop<B>(t: Table<B>, v: Named<B>): Table<B> {
    Table(t.byName - {v.name}, t.names - {v.id})
  }

  /** What a rename does: the old name goes, and the new one takes its ID. */
  function Move<B>(t: Table<B>, current: Named<B>, renamed: Named<B>): Table<B> {
    Put(Table(t.byName - {current.name}, t.names), renamed)
  }

  /** Every name leads to the definition of that name, and the IDs that lead
      anywhere are those of the definitions, each to the one definition with it. */
  predicate WellIndexed<B>(t: Table<B>) {
    && (forall n :: n in t.byName ==> t.byName[n].name == n)
    && (forall id :: id in t.names ==> id != "" && t.names[id] in t.byName && t.byName[t.names[id]].id == id)
    && (forall n :: n in t.byName && t.byName[n].id != "" ==> t.byName[n].id in t.names && t.names[t.byName[n].id] == n)
  }

  /** A lookup: by name, or else by ID. */
  function Find<B>(t: Table<B>, key: string): (r: Option<Named<B>>)
    requires WellIndexed(t)
    ensures r.Some? ==> r.value.name in t.byName && t.byName[r.value.name] == r.value
    ensures r.Some? ==> key == r.value.name || (key == r.value.id && key !in t.byName)
    ensures key in t.byName ==> r == Some(t.byName[key])
    ensures r.None? <==> forall n :: n in t.byName ==> n != key && (t.byName[n].id == key ==> key == "")
  {
    if key in t.byName then Some(t.byName[key])
    else if key in t.names then Some(t.byName[t.names[key]])
    else None
  }

  /** Whether keeping v leaves every index entry leading where it should: a
      definition it replaces had its ID, or none, and no other has it. */
  predicate KeepsIDs<B>(t: Table<B>, v: Named<B>) {
    && (v.name in t.byName ==> t.byName[v.name].id == "" || t.byName[v.name].id == v.id)
    && (v.id in t.names ==> t.names[v.id] == v.name)
  }

  lemma PutKeepsIff<B>(t: Table<B>, v: Named<B>)
    requires WellIndexed(t)
    ensures WellIndexed(Put(t, v)) <==> KeepsIDs(t, v)
  {
    var after := Put(t, v);
    if KeepsIDs(t, v) {
      PutKeeps(t, v);
    } else if v.id in t.names && t.names[v.id] != v.name {
      var n := t.names[v.id];
      assert n in after.byName && after.byName[n].id == v.id && after.names[v.id] != n;
    } else {
      var previous := t.byName[v.name].id;
      assert previous in after.names && after.names[previous] == v.name && after.byName[v.name].id != previous;
    }
  }

  lemma PutKeeps<B>(t: Table<B>, v: Named<B>)
    requires WellIndexed(t) && KeepsIDs(t, v)
    ensures WellIndexed(Put(t, v))
  {
  }

  lemma DropKeeps<B>(t: Table<B>, v: Named<B>)
    requires WellIndexed(t) && v.name in t.byName && t.byName[v.name] == v
    ensures WellIndexed(Drop(t, v))
  {
  }

  /** A rename to a name not taken keeps the index right exactly when it keeps the
      ID, or gives one to a definition that had none. */
  lemma MoveKeepsIff<B>(t: Table<B>, current: Named<B>, renamed: Named<B>)
    requires WellIndexed(t) && current.name in t.byName && t.byName[current.name] == current
    requires renamed.name !in t.byName
    ensures WellIndexed(Move(t, current, renamed)) <==>
            renamed.id == current.id || (current.id == "" && renamed.id !in t.names)
  {
    var after := Move(t, current, renamed);
    if renamed.id == current.id || (current.id == "" && renamed.id !in t.names) {
      forall n | n in after.byName && after.byName[n].id != ""
        ensures after.byName[n].id in after.names && after.names[after.byName[n].id] == n
      {
        if n != renamed.name {
          assert n in t.byName && t.names[t.byName[n].id] == n != current.name;
        }
      }
    } else if current.id != "" {
      assert current.id in after.names && after.names[current.id] == current.name;
      assert current.name !in after.byName;
    } else {
      var n := t.names[renamed.id];
      assert n in after.byName && after.byName[n].id == renamed.id && after.names[renamed.id] != n;
    }
  }

  // ---------------------------------------------------------------- On disk

  /** What a directory of definitions holds under each name; None is an entry that
      no definition can be read from, such as a directory without one. */
  type Area<B> = map<string, Option<Named<B>>>

  /** Whether the loader takes what is under a name: it is a definition of that
      name, and not, where definitions are directories, in a staging directory. */
  predicate Loads<B>(a: Area<B>, dirs: bool, n: string) {
    && n in a && a[n].Some? && a[n].value.name == n
    && !(dirs && IsStaging(n))
  }

  function Loadable<B>(a: Area<B>, dirs: bool): map<string, Named<B>> {
    map n | n in a && Loads(a, dirs, n) :: a[n].value
  }

  lemma LoadableWrite<B>(a: Area<B>, dirs: bool, v: Named<B>)
    requires !(dirs && IsStaging(v.name))
    ensures Loadable(a[v.name := Some(v)], dirs) == Loadable(a, dirs)[v.name := v]
  {
  }

  lemma LoadableBlank<B>(a: Area<B>, dirs: bool, n: string)
    ensures Loadable(a[n := None], dirs) == Loadable(a, dirs) - {n}
  {
  }

  lemma LoadableRemove<B>(a: Area<B>, dirs: bool, n: string)
    ensures Loadable(a - {n}, dirs) == Loadable(a, dirs) - {n}
  {
  }

  lemma LoadableStaging<B>(a: Area<B>, n: string, entry: Option<Named<B>>)
    requires IsStaging(n)
    ensures Loadable(a[n := entry], true) == Loadable(a, true)
    ensures Loadable(a - {n}, true) == Loadable(a, true)
  {
  }

  // ---------------------------------------------------------------- Loading

  /** What is in memory is what the files would load as. */
  ghost predicate Holds<B>(a: Area<B>, dirs: bool, t: Table<B>) {
    Loadable(a, dirs) == t.byName
  }

  /** The definitions of the names read so far. */
  function LoadedFrom<B>(a: Area<B>, dirs: bool, read: seq<string>): map<string, Named<B>> {
    map n | n in read && Loads(a, dirs, n) :: a[n].value
  }

  predicate UniqueIDs<B>(m: map<string, Named<B>>) {
    forall n, k :: n in m && k in m && m[n].id == m[k].id != "" ==> n == k
  }

  lemma WellIndexedIsUnique<B>(t: Table<B>)
    requires WellIndexed(t)
    ensures UniqueIDs(t.byName)
  {
  }

  /** The index is a function of the definitions. */
  lemma IndexIsDetermined<B>(t: Table<B>, u: Table<B>)
    requires WellIndexed(t) && WellIndexed(u) && t.byName == u.byName
    ensures t == u
  {
    assert forall id :: id in t.names ==> id in u.names && u.names[id] == t.names[id];
    assert forall id :: id in u.names ==> id in t.names;
    assert t.names == u.names;
  }

  /** A directory once the loader has removed the staging directories it can. */
  function Swept<B>(a: Area<B>, stuck: set<string>): Area<B> {
    map n | n in a && (IsStaging(n) ==> n in stuck) :: a[n]
  }

  lemma SweptLoadsTheSame<B>(a: Area<B>, stuck: set<string>)
    ensures Loadable(Swept(a, stuck), true) == Loadable(a, true)
  {
  }

  /** definitionDirs, over the entries as they are listed; stuck are the staging
      directories that cannot be removed. */
  method ListDirs<B>(a: Area<B>, listing: seq<string>, stuck: set<string>) returns (names: seq<string>, swept: Area<B>)
    requires forall n :: n in a <==> n in listing
    ensures forall n :: n in names <==> n in a && !IsStaging(n)
    ensures swept == Swept(a, stuck)
  {
    names, swept := [], a;
    for i := 0 to |listing|
      invariant forall n :: n in names <==> n in listing[..i] && !IsStaging(n)
      invariant swept == map n | n in a && (IsStaging(n) && n in listing[..i] ==> n in stuck) :: a[n]
    {
      assert listing[..i + 1] == listing[..i] + [listing[i]];
      if !IsStaging(listing[i]) {
        names := names + [listing[i]];
      } else if listing[i] !in stuck {
        swept := swept - {listing[i]};
      }
    }
    assert listing[..|listing|] == listing;
  }

  /** The loops of loadKernels and the like, over the names they are given. */
  method Load<B>(a: Area<B>, dirs: bool, names: seq<string>) returns (t: Table<B>)
    requires forall n :: n in names <==> n in a && !(dirs && IsStaging(n))
    ensures t.byName == Loadable(a, dirs)
    ensures UniqueIDs(t.byName) ==> WellIndexed(t)
  {
    t := Table(map[], map[]);
    for i := 0 to |names|
      invariant t.byName == LoadedFrom(a, dirs, names[..i])
      invariant UniqueIDs(Loadable(a, dirs)) ==> WellIndexed(t)
    {
      var name := names[i];
      assert names[..i + 1] == names[..i] + [name];
      if a[name].Some? && a[name].value.name == name {
        LoadOne(a, dirs, names[..i], t, a[name].value);
        t := Put(t, a[name].value);
      }
    }
    assert names[..|names|] == names;
    assert LoadedFrom(a, dirs, names) == Loadable(a, dirs);
  }

  lemma LoadOne<B>(a: Area<B>, dirs: bool, read: seq<string>, t: Table<B>, v: Named<B>)
    requires t.byName == LoadedFrom(a, dirs, read) && Loads(a, dirs, v.name) && a[v.name].value == v
    ensures Put(t, v).byName == LoadedFrom(a, dirs, read + [v.name])
    ensures UniqueIDs(Loadable(a, dirs)) && WellIndexed(t) ==> WellIndexed(Put(t, v))
  {
    if UniqueIDs(Loadable(a, dirs)) && WellIndexed(t) {
      var all := Loadable(a, dirs);
      assert v.name in all && all[v.name] == v;
      if v.id in t.names {
        var n := t.names[v.id];
        assert n in all && all[n].id == v.id;
      }
      PutKeeps(t, v);
    }
  }

  /** Loading restores a table from the files that hold it, index and all. */
  lemma LoadRestores<B>(a: Area<B>, dirs: bool, t: Table<B>, loaded: Table<B>)
    requires WellIndexed(t) && Holds(a, dirs, t)
    requires loaded.byName == Loadable(a, dirs) && (UniqueIDs(loaded.byName) ==> WellIndexed(loaded))
    ensures loaded == t
  {
    WellIndexedIsUnique(t);
    IndexIsDetermined(t, loaded);
  }
}
