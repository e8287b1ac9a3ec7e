// shared/state-store/src/versioned-state.ts
//
// Bringing a state file up to the current schema version with one pass over the
// sorted migrations.
module Migrations {
  import opened Collections

  // `migrate` may throw, which ends the read.
  datatype Migration<!D> = Migration(fromVersion: real, toVersion: real, migrate: D -> Result<D, string>)

  datatype VersionedState<D> = VersionedState(schemaVersion: real, data: D)

  // What reading and parsing the file gives. The whole parsed object counts as the
  // data where it has no `data` field.
  datatype File<D> =
    | Missing
    | Unreadable(error: string)
    | CorruptJson
    | NotAnObject
    | Record(schemaVersion: Option<real>, dataField: Option<D>, whole: D)

  // ---------------------------------------------------------------- sorting

  function Insert<D>(m: Migration<D>, sorted: seq<Migration<D>>): seq<Migration<D>>
  {
    if sorted == [] || m.fromVersion <= sorted[0].fromVersion then [m] + sorted
    else [sorted[0]] + Insert(m, sorted[1..])
  }

  /** Array.prototype.sort by fromVersion, which is stable. */
  function StableSort<D>(ms: seq<Migration<D>>): seq<Migration<D>>
  {
    if ms == [] then [] else Insert(ms[0], StableSort(ms[1..]))
  }

  ghost predicate Sorted<D>(ms: seq<Migration<D>>)
  {
    forall i, j :: 0 <= i < j < |ms| ==> ms[i].fromVersion <= ms[j].fromVersion
  }

  /** The first listed migration from a version. */
  function FirstFrom<D>(ms: seq<Migration<D>>, version: real): Option<Migration<D>>
  {
    if ms == [] then None
    else if ms[0].fromVersion == version then Some(ms[0])
    else FirstFrom(ms[1..], version)
  }

  lemma {:induction false} InsertMembers<D>(m: Migration<D>, sorted: seq<Migration<D>>)
    ensures forall x :: x in Insert(m, sorted) <==> x == m || x in sorted
  {
    if sorted != [] && m.fromVersion > sorted[0].fromVersion {
      InsertMembers(m, sorted[1..]);
      assert sorted == [sorted[0]] + sorted[1..];
    }
  }

  lemma {:induction false} InsertSorts<D>(m: Migration<D>, sorted: seq<Migration<D>>)
    requires Sorted(sorted)
    ensures Sorted(Insert(m, sorted))
  {
    if sorted != [] && m.fromVersion > sorted[0].fromVersion {
      InsertSorts(m, sorted[1..]);
      InsertMembers(m, sorted[1..]);
      var rest := Insert(m, sorted[1..]);
      forall j | 0 <= j < |rest| ensures sorted[0].fromVersion <= rest[j].fromVersion {
        assert rest[j] in rest;
      }
    }
  }

  lemma {:induction false} InsertFirst<D>(m: Migration<D>, sorted: seq<Migration<D>>, version: real)
    requires Sorted(sorted)
    ensures FirstFrom(Insert(m, sorted), version)
         == if m.fromVersion == version then Some(m) else FirstFrom(sorted, version)
  {
    if sorted == [] || m.fromVersion <= sorted[0].fromVersion {
      assert ([m] + sorted)[1..] == sorted;
    } else {
      InsertFirst(m, sorted[1..], version);
      assert ([sorted[0]] + Insert(m, sorted[1..]))[1..] == Insert(m, sorted[1..]);
    }
  }

  /** Sorting keeps the migrations, and among those from one version which is
      first. */
  lemma {:induction false} StableSortCorrect<D>(ms: seq<Migration<D>>)
    ensures Sorted(StableSort(ms))
    ensures forall x :: x in StableSort(ms) <==> x in ms
    ensures forall v :: FirstFrom(StableSort(ms), v) == FirstFrom(ms, v)
  {
    if ms != [] {
      StableSortCorrect(ms[1..]);
      InsertSorts(ms[0], StableSort(ms[1..]));
      InsertMembers(ms[0], StableSort(ms[1..]));
      assert ms == [ms[0]] + ms[1..];
      forall v ensures FirstFrom(StableSort(ms), v) == FirstFrom(ms, v) {
        InsertFirst(ms[0], StableSort(ms[1..]), v);
      }
    }
  }

  // ---------------------------------------------------------------- the pass

  // How a run of migrations ends.
  datatype End<D> = Reached(data: D) | Stuck | Threw(error: string)

  /** One pass over the list, as the loop makes it. */
  function Pass<D>(ms: seq<Migration<D>>, version: real, data: D, current: real): End<D>
    decreases |ms|
  {
    if ms == [] then Stuck
    else if ms[0].fromVersion != version then Pass(ms[1..], version, data, current)
    else
      match ms[0].migrate(data)
      case Err(e) => Threw(e)
      case Ok(d) =>
        if ms[0].toVersion == current then Reached(d) else Pass(ms[1..], ms[0].toVersion, d, current)
  }

  function Outcome<D>(end: End<D>, current: real, default: D): Result<VersionedState<D>, string>
  {
    match end
    case Reached(d) => Ok(VersionedState(current, d))
    case Stuck => Ok(VersionedState(current, default))
    case Threw(e) => Err(e)
  }

  function Upgrade<D>(file: File<D>, current: real, migrations: seq<Migration<D>>, default: D)
    : Result<VersionedState<D>, string>
  {
    match file
    case Unreadable(e) => Err(e)
    case Record(schemaVersion, dataField, whole) =>
      var onDisk := schemaVersion.GetOr(0.0);
      var data := dataField.GetOr(whole);
      if onDisk > current then Ok(VersionedState(current, default))
      else if onDisk == current then Ok(VersionedState(current, data))
      else Outcome(Pass(StableSort(migrations), onDisk, data, current), current, default)
    case _ => Ok(VersionedState(current, default))
  }

  method ReadVersionedState<D>(file: File<D>, currentVersion: real, migrations: seq<Migration<D>>, default: D)
    returns (r: Result<VersionedState<D>, string>)
    ensures r == Upgrade(file, currentVersion, migrations, default)
  {
    if file.Missing? { return Ok(VersionedState(currentVersion, default)); }
    if file.Unreadable? { return Err(file.error); }
    if file.CorruptJson? { return Ok(VersionedState(currentVersion, default)); }
    if file.NotAnObject? { return Ok(VersionedState(currentVersion, default)); }
    var onDiskVersion := file.schemaVersion.GetOr(0.0);
    if onDiskVersion > currentVersion { return Ok(VersionedState(currentVersion, default)); }
    var data := file.dataField.GetOr(file.whole);
    if onDiskVersion == currentVersion { return Ok(VersionedState(currentVersion, data)); }
    var sorted := StableSort(migrations);
    var version := onDiskVersion;
    ghost var end := Pass(sorted, version, data, currentVersion);
    for i := 0 to |sorted|
      invariant version != currentVersion
      invariant Pass(sorted[i..], version, data, currentVersion) == end
    {
      var m := sorted[i];
      assert sorted[i..][1..] == sorted[i + 1..];
      if m.fromVersion != version { continue; }
      var migrated := m.migrate(data);
      if migrated.Err? { return Err(migrated.error); }
      data := migrated.value;
      version := m.toVersion;
      if version == currentVersion { break; }
    }
    if version != currentVersion { return Ok(VersionedState(currentVersion, default)); }
    return Ok(VersionedState(currentVersion, data));
  }

  // ---------------------------------------------------------------- the chain

  ghost predicate Raising<D>(ms: seq<Migration<D>>)
  {
    forall m :: m in ms ==> m.fromVersion < m.toVersion
  }

  /** How many migrations start at a version or above. */
  function From<D>(ms: seq<Migration<D>>, version: real): nat
  {
    if ms == [] then 0
    else (if ms[0].fromVersion >= version then 1 else 0) + From(ms[1..], version)
  }

  lemma {:induction false} FirstFromMember<D>(ms: seq<Migration<D>>, version: real)
    requires FirstFrom(ms, version).Some?
    ensures FirstFrom(ms, version).value in ms && FirstFrom(ms, version).value.fromVersion == version
  {
    if ms[0].fromVersion != version { FirstFromMember(ms[1..], version); }
  }

  lemma {:induction false} FromShrinks<D>(ms: seq<Migration<D>>, low: real, high: real)
    requires low < high
    ensures From(ms, high) <= From(ms, low)
    ensures FirstFrom(ms, low).Some? ==> From(ms, high) < From(ms, low)
  {
    if ms != [] { FromShrinks(ms[1..], low, high); }
  }

  /** From the version on disk, always the first listed migration that fits, until
      the current version is met or none fits. */
  function Chain<D>(ms: seq<Migration<D>>, version: real, data: D, current: real): End<D>
    requires Raising(ms)
    decreases From(ms, version)
  {
    if version == current then Reached(data)
    else
      match FirstFrom(ms, version)
      case None => Stuck
      case Some(m) =>
        FirstFromMember(ms, version);
        FromShrinks(ms, version, m.toVersion);
        match m.migrate(data)
        case Err(e) => Threw(e)
        case Ok(d) => Chain(ms, m.toVersion, d, current)
  }

  lemma {:induction false} NoneFrom<D>(ms: seq<Migration<D>>, version: real, data: D, current: real)
    requires forall m :: m in ms ==> m.fromVersion > version
    ensures FirstFrom(ms, version).None? && Pass(ms, version, data, current).Stuck?
  {
    if ms != [] { NoneFrom(ms[1..], version, data, current); }
  }

  /** Passed-over migrations from lower versions do not matter. */
  lemma {:induction false} SkipLower<D>(ms: seq<Migration<D>>, i: nat, version: real)
    requires i <= |ms|
    requires forall j :: 0 <= j < i ==> ms[j].fromVersion < version
    ensures FirstFrom(ms, version) == FirstFrom(ms[i..], version)
    decreases |ms|
  {
    if i > 0 {
      assert ms[1..][i - 1..] == ms[i..];
      SkipLower(ms[1..], i - 1, version);
    }
  }

  lemma {:induction false} PassIsChainFrom<D>(ms: seq<Migration<D>>, i: nat, version: real, data: D, current: real)
    requires Sorted(ms) && Raising(ms) && i <= |ms| && version != current
    requires forall j :: 0 <= j < i ==> ms[j].fromVersion < version
    ensures Pass(ms[i..], version, data, current) == Chain(ms, version, data, current)
    decreases |ms| - i
  {
    SkipLower(ms, i, version);
    if i < |ms| {
      var m := ms[i];
      assert ms[i..][1..] == ms[i + 1..];
      if m.fromVersion < version {
        PassIsChainFrom(ms, i + 1, version, data, current);
      } else if m.fromVersion > version {
        NoneFrom(ms[i..], version, data, current);
      } else {
        assert FirstFrom(ms, version) == Some(m);
        var migrated := m.migrate(data);
        if migrated.Ok? && m.toVersion != current {
          PassIsChainFrom(ms, i + 1, m.toVersion, migrated.value, current);
        }
      }
    }
  }

  lemma {:induction false} ChainOfSorted<D>(a: seq<Migration<D>>, b: seq<Migration<D>>,
                                            version: real, data: D, current: real)
    requires Raising(a) && Raising(b)
    requires forall v :: FirstFrom(a, v) == FirstFrom(b, v)
    ensures Chain(a, version, data, current) == Chain(b, version, data, current)
    decreases From(a, version)
  {
    if version != current && FirstFrom(a, version).Some? {
      var m := FirstFrom(a, version).value;
      FirstFromMember(a, version);
      FromShrinks(a, version, m.toVersion);
      if m.migrate(data).Ok? {
        ChainOfSorted(a, b, m.toVersion, m.migrate(data).value, current);
      }
    }
  }

  /** When every migration raises the version, the single pass over the sorted list
      follows the chain from the version on disk. */
  lemma PassIsChain<D>(ms: seq<Migration<D>>, version: real, data: D, current: real)
    requires Raising(ms) && version != current
    ensures Pass(StableSort(ms), version, data, current) == Chain(ms, version, data, current)
  {
    StableSortCorrect(ms);
    var sorted := StableSort(ms);
    assert sorted[0..] == sorted;
    PassIsChainFrom(sorted, 0, version, data, current);
    ChainOfSorted(sorted, ms, version, data, current);
  }

  /** So an older file comes back with its data migrated along the chain when the
      chain ends exactly at the current version, and as the default otherwise. */
  lemma UpgradeFollowsChain<D>(file: File<D>, current: real, ms: seq<Migration<D>>, default: D)
    requires Raising(ms) && file.Record? && file.schemaVersion.GetOr(0.0) < current
    ensures Upgrade(file, current, ms, default)
         == Outcome(Chain(ms, file.schemaVersion.GetOr(0.0), file.dataField.GetOr(file.whole), current),
                    current, default)
  {
    PassIsChain(ms, file.schemaVersion.GetOr(0.0), file.dataField.GetOr(file.whole), current);
  }

  // ---------------------------------------------------------------- paths

  /** A path of first-listed migrations that leads from a version exactly to the
      current one. */
  ghost predicate Leads<D>(ms: seq<Migration<D>>, path: seq<Migration<D>>, version: real, current: real)
    decreases |path|
  {
    if path == [] then version == current
    else
      && version != current
      && FirstFrom(ms, version) == Some(path[0])
      && Leads(ms, path[1..], path[0].toVersion, current)
  }

  /** The migrations of a path applied one after the other. */
  function Compose<D>(path: seq<Migration<D>>, data: D): Result<D, string>
    decreases |path|
  {
    if path == [] then Ok(data)
    else
      match path[0].migrate(data)
      case Err(e) => Err(e)
      case Ok(d) => Compose(path[1..], d)
  }

  ghost predicate Ascending<D>(path: seq<Migration<D>>)
  {
    forall i :: 0 <= i < |path| - 1 ==> path[i].fromVersion < path[i].toVersion
  }

  ghost predicate DistinctFrom<D>(ms: seq<Migration<D>>)
  {
    forall i, j :: 0 <= i < j < |ms| ==> ms[i].fromVersion != ms[j].fromVersion
  }

  lemma FirstIsNotAbove<D>(ms: seq<Migration<D>>, i: nat, version: real)
    requires Sorted(ms) && i <= |ms| && FirstFrom(ms[i..], version).Some?
    ensures i < |ms| && ms[i].fromVersion <= version
  {
    FirstFromMember(ms[i..], version);
    var k :| 0 <= k < |ms[i..]| && ms[i..][k] == FirstFrom(ms[i..], version).value;
    assert ms[i + k].fromVersion == version;
  }

  /** If such a path climbs, up to its last step, the pass takes it. */
  lemma {:induction false} PassTakesPath<D>(ms: seq<Migration<D>>, i: nat, path: seq<Migration<D>>,
                                            version: real, data: D, current: real)
    requires Sorted(ms) && i <= |ms|
    requires forall j :: 0 <= j < i ==> ms[j].fromVersion < version
    requires path != [] && Leads(ms, path, version, current) && Ascending(path)
    ensures Pass(ms[i..], version, data, current)
         == match Compose(path, data) case Ok(d) => Reached(d) case Err(e) => Threw(e)
    decreases |ms| - i
  {
    SkipLower(ms, i, version);
    FirstIsNotAbove(ms, i, version);
    var m := ms[i];
    assert ms[i..][1..] == ms[i + 1..];
    if m.fromVersion < version {
      PassTakesPath(ms, i + 1, path, version, data, current);
    } else if m.migrate(data).Ok? && path[1..] != [] {
      assert path[0].fromVersion < path[0].toVersion;
      PassTakesPath(ms, i + 1, path[1..], m.toVersion, m.migrate(data).value, current);
    }
  }

  /** And what the pass reaches, it reaches along such a path. */
  lemma {:induction false} PassHasPath<D>(ms: seq<Migration<D>>, i: nat, version: real, data: D, current: real)
    returns (path: seq<Migration<D>>)
    requires Sorted(ms) && DistinctFrom(ms) && i <= |ms| && version != current
    requires Pass(ms[i..], version, data, current).Reached?
    ensures path != [] && Leads(ms, path, version, current) && Ascending(path)
    ensures Compose(path, data) == Ok(Pass(ms[i..], version, data, current).data)
    ensures exists j :: i <= j < |ms| && ms[j] == path[0]
    decreases |ms| - i
  {
    var m := ms[i];
    assert ms[i..][1..] == ms[i + 1..];
    if m.fromVersion != version {
      path := PassHasPath(ms, i + 1, version, data, current);
    } else {
      OnlyFrom(ms, i);
      if m.toVersion == current {
        path := [m];
      } else {
        var rest := PassHasPath(ms, i + 1, m.toVersion, m.migrate(data).value, current);
        path := [m] + rest;
        assert path[1..] == rest;
        FirstFromMember(ms, m.toVersion);
        var j :| i + 1 <= j < |ms| && ms[j] == rest[0];
        assert ms[i].fromVersion <= ms[j].fromVersion && ms[i].fromVersion != ms[j].fromVersion;
      }
    }
  }

  lemma {:induction false} OnlyFrom<D>(ms: seq<Migration<D>>, i: nat)
    requires DistinctFrom(ms) && i < |ms|
    ensures FirstFrom(ms, ms[i].fromVersion) == Some(ms[i])
    decreases |ms|
  {
    if i > 0 {
      assert ms[0].fromVersion != ms[i].fromVersion;
      OnlyFrom(ms[1..], i - 1);
    }
  }

  lemma {:induction false} LeadsElsewhere<D>(a: seq<Migration<D>>, b: seq<Migration<D>>, path: seq<Migration<D>>,
                                             version: real, current: real)
    requires forall v :: FirstFrom(a, v) == FirstFrom(b, v)
    ensures Leads(a, path, version, current) <==> Leads(b, path, version, current)
    decreases |path|
  {
    if path != [] { LeadsElsewhere(a, b, path[1..], path[0].toVersion, current); }
  }

  lemma {:induction false} DistinctStaysDistinct<D>(ms: seq<Migration<D>>)
    requires DistinctFrom(ms)
    ensures DistinctFrom(StableSort(ms))
  {
    if ms != [] {
      DistinctStaysDistinct(ms[1..]);
      StableSortCorrect(ms[1..]);
      forall m | m in StableSort(ms[1..]) ensures m.fromVersion != ms[0].fromVersion {
        var j :| 0 <= j < |ms[1..]| && ms[1..][j] == m;
        assert ms[j + 1] == m;
      }
      InsertDistinct(ms[0], StableSort(ms[1..]));
    }
  }

  lemma {:induction false} InsertDistinct<D>(m: Migration<D>, sorted: seq<Migration<D>>)
    requires DistinctFrom(sorted) && forall x :: x in sorted ==> x.fromVersion != m.fromVersion
    ensures DistinctFrom(Insert(m, sorted))
  {
    if sorted != [] && m.fromVersion > sorted[0].fromVersion {
      InsertDistinct(m, sorted[1..]);
      InsertMembers(m, sorted[1..]);
      var rest := Insert(m, sorted[1..]);
      forall j | 0 <= j < |rest| ensures rest[j].fromVersion != sorted[0].fromVersion {
        assert rest[j] in rest;
        if rest[j] in sorted[1..] {
          var k :| 0 <= k < |sorted[1..]| && sorted[1..][k] == rest[j];
          assert sorted[k + 1] == rest[j];
        }
      }
    }
  }

  /** Without that assumption, and with one migration per version: the data comes
      back migrated exactly when a path leads to the current version and climbs up
      to its last step. A path that goes down on the way is not followed. */
  lemma PassReachesIff<D>(ms: seq<Migration<D>>, version: real, data: D, current: real)
    returns (path: seq<Migration<D>>)
    requires DistinctFrom(ms) && version != current
    ensures Pass(StableSort(ms), version, data, current).Reached? ==>
              && Leads(ms, path, version, current) && Ascending(path)
              && Compose(path, data) == Ok(Pass(StableSort(ms), version, data, current).data)
    ensures forall p :: Leads(ms, p, version, current) && Ascending(p) ==>
              Pass(StableSort(ms), version, data, current)
              == match Compose(p, data) case Ok(d) => Reached(d) case Err(e) => Threw(e)
  {
    var sorted := StableSort(ms);
    StableSortCorrect(ms);
    DistinctStaysDistinct(ms);
    assert sorted[0..] == sorted;
    path := [];
    if Pass(sorted, version, data, current).Reached? {
      path := PassHasPath(sorted, 0, version, data, current);
      LeadsElsewhere(sorted, ms, path, version, current);
    }
    forall p | Leads(ms, p, version, current) && Ascending(p)
      ensures Pass(sorted, version, data, current)
           == match Compose(p, data) case Ok(d) => Reached(d) case Err(e) => Threw(e)
    {
      LeadsElsewhere(sorted, ms, p, version, current);
      PassTakesPath(sorted, 0, p, version, data, current);
    }
  }

  function VersionOf<D>(file: File<D>): real
    requires file.Record?
  {
    file.schemaVersion.GetOr(0.0)
  }

  function AtVersion<D>(version: real, migrated: Result<D, string>): Result<VersionedState<D>, string>
  {
    if migrated.Ok? then Ok(VersionedState(version, migrated.value)) else Err(migrated.error)
  }

  /** A file that is not newer comes back with its data taken along such a path, as it
      is when it is current already, and with the error of a step that throws. */
  lemma UpgradeAlongPath<D>(file: File<D>, current: real, ms: seq<Migration<D>>, default: D, path: seq<Migration<D>>)
    requires file.Record? && VersionOf(file) <= current && DistinctFrom(ms)
    requires Leads(ms, path, VersionOf(file), current) && Ascending(path)
    ensures Upgrade(file, current, ms, default)
         == AtVersion(current, Compose(path, file.dataField.GetOr(file.whole)))
  {
    if VersionOf(file) < current {
      var p := PassReachesIff(ms, VersionOf(file), file.dataField.GetOr(file.whole), current);
    }
  }

  /** Every other file comes back as the default, unless a migration throws on the way;
      where reading the file throws, so does this. */
  lemma UpgradeWithoutPath<D>(file: File<D>, current: real, ms: seq<Migration<D>>, default: D)
    requires DistinctFrom(ms)
    requires file.Record? && VersionOf(file) <= current ==>
               forall path :: Leads(ms, path, VersionOf(file), current) ==> !Ascending(path)
    ensures var r := Upgrade(file, current, ms, default);
            && (r.Ok? ==> r.value == VersionedState(current, default))
            && (!file.Record? || VersionOf(file) > current ==> (r.Ok? <==> !file.Unreadable?))
            && (file.Unreadable? ==> r == Err(file.error))
  {
    if file.Record? && VersionOf(file) <= current {
      assert Leads(ms, [], current, current) && Ascending<D>([]);
      var path := PassReachesIff(ms, VersionOf(file), file.dataField.GetOr(file.whole), current);
    }
  }

  /** A chain through a lower version: following it would arrive, one pass does not,
      and the default comes back. */
  lemma DescendingPathIsMissed<D>(down: D -> Result<D, string>, up: D -> Result<D, string>, whole: D, default: D)
    ensures var ms := [Migration(2.0, 1.0, down), Migration(1.0, 3.0, up)];
            && Leads(ms, ms, 2.0, 3.0)
            && Upgrade(Record(Some(2.0), None, whole), 3.0, ms, default)
               == match down(whole) case Ok(_) => Ok(VersionedState(3.0, default)) case Err(e) => Err(e)
  {
    var a, b := Migration(2.0, 1.0, down), Migration(1.0, 3.0, up);
    assert [a, b][1..] == [b] && [b][1..] == [];
    assert StableSort([b]) == [b];
    assert Insert(a, [b]) == [b] + Insert(a, [b][1..]) == [b, a];
    assert StableSort([a, b]) == Insert(a, StableSort([b]));
    assert [b, a][1..] == [a] && [a][1..] == [];
    assert FirstFrom([b], 1.0) == Some(b) && FirstFrom([a, b], 1.0) == Some(b);
    assert Leads([a, b], [], 3.0, 3.0) && Leads([a, b], [b], 1.0, 3.0);
    assert Pass([b, a], 2.0, whole, 3.0) == Pass([a], 2.0, whole, 3.0);
    if down(whole).Ok? {
      var d := down(whole).value;
      assert Pass([a], 2.0, whole, 3.0) == Pass([a][1..], 1.0, d, 3.0);
      assert Pass<D>([], 1.0, d, 3.0) == Stuck;
    }
  }

  // ---------------------------------------------------------------- order

  lemma HeadIsMember<T>(s: seq<T>)
    ensures s == [] || s[0] in s
  {
  }

  lemma {:induction false} SortedIsUnique<D>(a: seq<Migration<D>>, b: seq<Migration<D>>)
    requires Sorted(a) && DistinctFrom(a) && Sorted(b) && DistinctFrom(b)
    requires forall m :: m in a <==> m in b
    ensures a == b
    decreases |a|
  {
    if a == [] {
      HeadIsMember(b);
    } else {
      assert a[0] in b && b != [];
      assert b[0] in a;
      var i :| 0 <= i < |b| && b[i] == a[0];
      var j :| 0 <= j < |a| && a[j] == b[0];
      assert a[0] == b[0];
      forall m ensures m in a[1..] <==> m in b[1..] {
        TailMembers(a, m);
        TailMembers(b, m);
      }
      SortedIsUnique(a[1..], b[1..]);
      assert a == [a[0]] + a[1..] && b == [b[0]] + b[1..];
    }
  }

  lemma TailMembers<D>(a: seq<Migration<D>>, m: Migration<D>)
    requires a != [] && DistinctFrom(a)
    ensures m in a[1..] <==> m in a && m != a[0]
  {
    if m in a[1..] {
      var k :| 0 <= k < |a[1..]| && a[1..][k] == m;
      assert a[k + 1] == m;
    }
  }

  /** With one migration per version, the order in which they are listed makes no
      difference. */
  lemma OrderDoesNotMatter<D>(file: File<D>, current: real, a: seq<Migration<D>>, b: seq<Migration<D>>, default: D)
    requires DistinctFrom(a) && DistinctFrom(b) && forall m :: m in a <==> m in b
    ensures Upgrade(file, current, a, default) == Upgrade(file, current, b, default)
  {
    StableSortCorrect(a);
    StableSortCorrect(b);
    DistinctStaysDistinct(a);
    DistinctStaysDistinct(b);
    SortedIsUnique(StableSort(a), StableSort(b));
  }
}
