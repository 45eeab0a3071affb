/**
 Opening a database that has no usable object index: a new one, one whose index
 file is gone, or one in the legacy format, which is migrated first.  Whatever the
 value file held, the opened store stands for its last-write map.
 */
module Opening {
  import opened Wrappers
  import opened Bytes
  import opened Words
  import opened Hash
  import opened Probing
  import opened FileIO
  import opened RecordLog
  import opened Migration
  import opened ObjectIndex
  import opened ObjectStore

  // ---- What a value file holds ------------------------------------------------------------

  datatype Held = Nothing | Current(log: seq<Record>) | Legacy(legacy: seq<LegacyRecord>)

  function DataOf(held: Held): seq<byte> {
    match held
    case Nothing => []
    case Current(log) => File(log)
    case Legacy(ls) => LegacyFile(ls)
  }

  ghost predicate HeldOk(held: Held) {
    match held
    case Nothing => true
    case Current(log) => AllStorable(log)
    case Legacy(ls) => forall l :: l in ls ==> LegacyStorable(l) && Measurable(l)
  }

  function LogOf(held: Held): seq<Record> {
    match held
    case Nothing => []
    case Current(log) => log
    case Legacy(ls) => Records(ls)
  }

  /** The map a legacy log denotes: each key with the value written last. */
  function LegacyContents(ls: seq<LegacyRecord>): map<Name, seq<byte>> {
    if ls == [] then map[]
    else
      var last := ls[|ls| - 1].record;
      LegacyContents(ls[..|ls| - 1])[last.name := last.value]
  }

  function MapOf(held: Held): map<Name, seq<byte>> {
    match held
    case Nothing => map[]
    case Current(log) => Contents(log)
    case Legacy(ls) => LegacyContents(ls)
  }

  /** The map of a legacy log is the map of its records in the current format. */
  lemma {:induction false} LegacyMeaning(ls: seq<LegacyRecord>)
    ensures Contents(Records(ls)) == LegacyContents(ls)
  {
    if ls != [] {
      var n := |ls| - 1;
      assert Records(ls)[..n] == Records(ls[..n]);
      LegacyMeaning(ls[..n]);
    }
  }

  lemma HeldMeaning(held: Held)
    ensures Contents(LogOf(held)) == MapOf(held)
  {
    if held.Legacy? { LegacyMeaning(held.legacy); }
  }

  lemma HeldStorable(held: Held)
    requires HeldOk(held)
    ensures AllStorable(LogOf(held))
  {
    if held.Legacy? {
      forall i | 0 <= i < |Records(held.legacy)| ensures Storable(Records(held.legacy)[i]) {
        assert held.legacy[i] in held.legacy;
      }
    }
  }

  // ---- The value file ---------------------------------------------------------------------------

  /** Magic, version and header size; the reserved word is not compared. */
  const CHECKED: nat := 16

  predicate HasHeader(data: seq<byte>, header: seq<byte>)
    requires |header| == FILE_HEADER_SIZE
  {
    |data| >= FILE_HEADER_SIZE && data[..CHECKED] == header[..CHECKED]
  }

  /** A value file that opening accepts. */
  predicate Usable(data: seq<byte>) {
    data == [] || HasHeader(data, FILE_HEADER) || (HasHeader(data, LEGACY_FILE_HEADER) && Migrated(data, FILE_HEADER_SIZE).Some?)
  }

  /** How opening a value file ends unless the system refuses a call: a read-only open migrates nothing and creates nothing. */
  function OpenStatus(data: seq<byte>, readOnly: bool): Status {
    if !readOnly then (if Usable(data) then Ok else Corruption)
    else if HasHeader(data, FILE_HEADER) then Ok
    else if HasHeader(data, LEGACY_FILE_HEADER) then InvalidArgument
    else Corruption
  }

  /** What an accepted value file has become once it is open. */
  function InCurrentFormat(data: seq<byte>): seq<byte> {
    if data == [] then FILE_HEADER
    else if HasHeader(data, LEGACY_FILE_HEADER) && Migrated(data, FILE_HEADER_SIZE).Some? then
      FILE_HEADER + Migrated(data, FILE_HEADER_SIZE).value
    else data
  }

  /**
   Opens the value file, writing the header of a new one and migrating a legacy
   one.  `values` is the file that is used from then on, and `migrated` tells that
   the object index was removed.
   */
  method OpenValueFile(file: Kernel, migration: Kernel, readOnly: bool)
    returns (status: Status, values: Kernel, appendOffset: nat, migrated: bool)
    requires file != migration
    modifies file, migration
    ensures values == (if migrated then migration else file) && status in {Ok, InvalidArgument, Corruption, IoError}
    ensures status == Ok ==> values.data == InCurrentFormat(old(file.data))
    ensures status == Ok ==> appendOffset == |values.data|
    ensures status == Ok ==> (migrated <==> HasHeader(old(file.data), LEGACY_FILE_HEADER))
    ensures status == Ok ==> Usable(old(file.data))
    ensures status == Ok && readOnly ==> HasHeader(old(file.data), FILE_HEADER)
    ensures status != IoError ==> status == OpenStatus(old(file.data), readOnly)
    ensures old(file.data) != [] || readOnly ==> file.data == old(file.data)
    ensures readOnly || !HasHeader(old(file.data), LEGACY_FILE_HEADER) ==> migration.data == old(migration.data)
    ensures status == IoError ==> Refused in old(file.script) || Refused in old(migration.script)
    ensures forall r :: r in file.script ==> r in old(file.script)
    ensures forall r :: r in migration.script ==> r in old(migration.script)
  {
    hide Migrated;
    values, appendOffset, migrated := file, 0, false;
    HeadersDiffer();
    if |file.data| == 0 {
      if readOnly { return Corruption, file, 0, false; }
      status := WriteAllAt(file, FILE_HEADER, 0);
      if status != Ok { return; }
      return Ok, file, FILE_HEADER_SIZE, false;
    }
    if |file.data| < FILE_HEADER_SIZE { return Corruption, file, 0, false; }
    var header;
    status, header := ReadAllAt(file, FILE_HEADER_SIZE, 0);
    if status != Ok { return; }
    assert header[..CHECKED] == file.data[..CHECKED];
    if header[..CHECKED] == LEGACY_FILE_HEADER[..CHECKED] {
      if readOnly { return InvalidArgument, file, 0, false; }
      status, appendOffset := MigrateLegacyValueFile(file, migration);
      return status, migration, appendOffset, true;
    }
    if header[..CHECKED] != FILE_HEADER[..CHECKED] { return Corruption, file, 0, false; }
    return Ok, file, |file.data|, false;
  }

  lemma HeadersDiffer()
    ensures FILE_HEADER[..CHECKED] != LEGACY_FILE_HEADER[..CHECKED]
    ensures |FILE_HEADER| == FILE_HEADER_SIZE == |LEGACY_FILE_HEADER| && CHECKED <= FILE_HEADER_SIZE
  {
    assert FILE_HEADER[..CHECKED][7] != LEGACY_FILE_HEADER[..CHECKED][7];
  }

  /** What opening makes of each kind of value file. */
  lemma OpenedData(held: Held)
    requires HeldOk(held)
    ensures Usable(DataOf(held)) && InCurrentFormat(DataOf(held)) == File(LogOf(held))
  {
    hide Migrated;
    HeadersDiffer();
    match held
    case Nothing => EmptyLog();
    case Current(log) => assert DataOf(held)[..CHECKED] == FILE_HEADER[..CHECKED];
    case Legacy(ls) =>
      MigrationIsExact(ls);
      assert DataOf(held)[..CHECKED] == LEGACY_FILE_HEADER[..CHECKED];
  }

  // ---- The store ----------------------------------------------------------------------------------

  /**
   Opening without an index file: the store then holds exactly the last-write map
   of the value file, whichever format it was in, and fails only when the system
   refuses a call.
   */
  method OpenDatabase(h: Hasher, f: real, initialBucketCount: nat, maxVectors: nat, file: Kernel, migration: Kernel, ghost held: Held)
    returns (status: Status, store: Store)
    requires 0.0 < f < 0.95 && maxVectors >= 1 && file != migration && file.data == DataOf(held) && HeldOk(held)
    modifies file, migration
    ensures status in {Ok, IoError} && fresh(store)
    ensures status == Ok ==> fresh(store.buckets) && store.Valid() && store.open && store.h == h
    ensures status == Ok ==> store.records == LogOf(held) && Contents(store.records) == MapOf(held)
    ensures status == Ok ==> store.owner == RebuiltTable(h, f, NoKeys(RoundUp(initialBucketCount)), LogOf(held))
    ensures status == IoError ==> Refused in old(file.script) || Refused in old(migration.script)
  {
    hide File, Migrated, DataOf, LogOf, MapOf, HeldOk, Usable, InCurrentFormat;
    OpenedData(held);
    HeldStorable(held);
    HeldMeaning(held);
    var values, appendOffset, migrated;
    status, values, appendOffset, migrated := OpenValueFile(file, migration, false);
    store := new Store.Unopened(h, f, initialBucketCount, maxVectors, values);
    if status != Ok { return; }
    status := store.OpenFiles([], 0, 0, 0, LogOf(held));
    if status != Ok { return; }
    store.open := true;
  }
}
