/**
 Reading, writing and deleting values by key (src/persistence_client_library_key.c,
 src/persistence_client_library_db_access.c) on top of a resource configuration table and of
 databases that are maps from printed keys to values. Open databases are remembered in a table
 indexed by the sum of storage and database id, and by the kind of database.
 */
module KeyValues {
  import opened Options
  import opened DbKeys

  type Value = seq<bv8>

  datatype Policy = Cached | WriteThrough

  datatype Storage = Local | Shared

  datatype Config = Config(policy: Policy, storage: Storage, readOnly: bool, isKey: bool)

  /** Second index of the table of open databases. */
  datatype Kind = Values(policy: Policy) | ConfDefault | FactoryDefault

  /** A database file: directory by table and policy, file name by kind. */
  datatype DbPath = DbPath(table: Table, policy: Policy, kind: Kind)

  const DB_TABLE_SIZE := 1024

  type TableIndex = n: nat | n < DB_TABLE_SIZE

  type Slot = (TableIndex, Kind)

  /** The configuration tables that can be opened, each by resource id. */
  type Rct = map<Table, map<string, Config>>

  datatype Db = Db(slots: map<Slot, DbPath>, files: map<DbPath, map<string, Value>>) {
    /** The content of a database file; opening a missing one creates it empty. */
    function File(p: DbPath): map<string, Value> {
      if p in files then files[p] else map[]
    }
  }

  const EPERS_COMMON := -1
  const EPERS_BUFLIMIT := -5
  const EPERS_NOPRCTABLE := -6
  const EPERS_NOKEY := -7
  const EPERS_NOKEYDATA := -8
  const EPERS_RESOURCE_READ_ONLY := -39

  datatype Result<+T> = Ok(value: T) | Err(code: int)

  /** The configuration of a resource; unknown ones of database 0xFF are local and cached. */
  function ConfigOf(rct: Rct, c: Context, resource: string): Result<Config> {
    var table := TableOf(c.ldbid);
    if table in rct && resource in rct[table] then Ok(rct[table][resource])
    else if c.ldbid == 0xFF then Ok(Config(Cached, Local, false, true))
    else if table in rct then Err(EPERS_NOKEYDATA)
    else Err(EPERS_NOPRCTABLE)
  }

  function StorageIndex(s: Storage): nat {
    match s case Local => 0 case Shared => 1
  }

  function SlotIndex(cfg: Config, c: Context): nat {
    StorageIndex(cfg.storage) + c.ldbid
  }

  function PathOf(cfg: Config, c: Context, kind: Kind): DbPath {
    DbPath(TableOf(c.ldbid), cfg.policy, kind)
  }

  // ---------- What the operations do ----------

  /** The database for a slot, opened at `p` if the slot is empty. */
  function Get(db: Db, cfg: Config, c: Context, kind: Kind): (Db, Option<DbPath>) {
    var index := SlotIndex(cfg, c);
    if index >= DB_TABLE_SIZE then (db, None)
    else
      var slot: Slot := (index, kind);
      if slot in db.slots then (db, Some(db.slots[slot]))
      else
        var p := PathOf(cfg, c, kind);
        (db.(slots := db.slots[slot := p]), Some(p))
  }

  /** Configurable default, else factory default; these are kept under the plain resource id. */
  function Default(db: Db, cfg: Config, c: Context, resource: string): (Db, Result<Value>) {
    var (db1, conf) := Get(db, cfg, c, ConfDefault);
    if conf.Some? && resource in db1.File(conf.value) then (db1, Ok(db1.File(conf.value)[resource]))
    else
      var (db2, factory) := Get(db1, cfg, c, FactoryDefault);
      if factory.Some? && resource in db2.File(factory.value) then (db2, Ok(db2.File(factory.value)[resource]))
      else (db2, Err(EPERS_NOKEY))
  }

  function Read(rct: Rct, db: Db, c: Context, resource: string): (Db, Result<Value>) {
    match ConfigOf(rct, c, resource)
    case Err(e) => (db, Err(e))
    case Ok(cfg) =>
      if !cfg.isKey then (db, Ok([]))
      else
        var (db1, p) := Get(db, cfg, c, Values(cfg.policy));
        if p.None? then (db1, Err(EPERS_COMMON))
        else if DbKey(c, resource) in db1.File(p.value) then (db1, Ok(db1.File(p.value)[DbKey(c, resource)]))
        else Default(db1, cfg, c, resource)
  }

  function Put(db: Db, p: DbPath, key: string, v: Value): Db {
    db.(files := db.files[p := db.File(p)[key := v]])
  }

  function Remove(db: Db, p: DbPath, key: string): Db {
    db.(files := db.files[p := db.File(p) - {key}])
  }

  function Write(rct: Rct, maxSize: int, db: Db, c: Context, resource: string, v: Value): (Db, Result<nat>) {
    if |v| > maxSize then (db, Err(EPERS_BUFLIMIT))
    else match ConfigOf(rct, c, resource)
    case Err(e) => (db, Err(e))
    case Ok(cfg) =>
      if !cfg.isKey then (db, Ok(0))
      else if cfg.readOnly then (db, Err(EPERS_RESOURCE_READ_ONLY))
      else
        var (db1, p) := Get(db, cfg, c, Values(cfg.policy));
        if p.None? then (db1, Err(EPERS_NOPRCTABLE)) else (Put(db1, p.value, DbKey(c, resource), v), Ok(|v|))
  }

  /** Deleting asks for no permission: a read-only resource can be deleted. */
  function Delete(rct: Rct, db: Db, c: Context, resource: string): (Db, Result<nat>) {
    match ConfigOf(rct, c, resource)
    case Err(e) => (db, Err(e))
    case Ok(cfg) =>
      if !cfg.isKey then (db, Ok(0))
      else
        var (db1, p) := Get(db, cfg, c, Values(cfg.policy));
        if p.None? then (db1, Err(EPERS_NOPRCTABLE))
        else if DbKey(c, resource) in db1.File(p.value) then (Remove(db1, p.value, DbKey(c, resource)), Ok(0))
        else (db1, Err(EPERS_NOKEY))
  }

  function CloseAll(db: Db): Db {
    db.(slots := map[])
  }

  // ---------- The code ----------

  class KeyStore {
    const rct: Rct
    const maxSize: int
    var db: Db

    constructor (rct: Rct, maxSize: int, db: Db)
      ensures this.rct == rct && this.maxSize == maxSize && this.db == db
    {
      this.rct, this.maxSize, this.db := rct, maxSize, db;
    }

    method DatabaseGet(cfg: Config, c: Context, kind: Kind) returns (handle: Option<DbPath>)
      modifies this`db
      ensures (db, handle) == Get(old(db), cfg, c, kind)
    {
      var arrayIdx: nat := StorageIndex(cfg.storage) + c.ldbid;
      handle := None;
      if arrayIdx < DB_TABLE_SIZE {
        if (arrayIdx, kind) !in db.slots {
          handle := Some(PathOf(cfg, c, kind));
          db := db.(slots := db.slots[(arrayIdx, kind) := handle.value]);
        } else {
          handle := Some(db.slots[(arrayIdx, kind)]);
        }
      }
    }

    /** The loop over the two default databases stops at the first that knows the resource. */
    method GetDefaults(cfg: Config, c: Context, resource: string) returns (r: Result<Value>)
      modifies this`db
      ensures (db, r) == Default(old(db), cfg, c, resource)
    {
      r := Err(EPERS_NOKEY);
      var kinds := [ConfDefault, FactoryDefault];
      ghost var d0 := db;
      var i := 0;
      while i < 2
        invariant i <= 2
        invariant i == 0 ==> db == d0 && r == Err(EPERS_NOKEY)
        invariant i == 1 ==>
          && r == Err(EPERS_NOKEY)
          && var (d1, conf) := Get(d0, cfg, c, ConfDefault);
          && db == d1 && !(conf.Some? && resource in d1.File(conf.value))
        invariant i == 2 ==> (db, r) == Default(d0, cfg, c, resource)
      {
        var handle := DatabaseGet(cfg, c, kinds[i]);
        if handle.Some? && resource in db.File(handle.value) {
          r := Ok(db.File(handle.value)[resource]);
          return;
        }
        i := i + 1;
      }
    }

    method KeyReadData(c: Context, resource: string) returns (r: Result<Value>)
      modifies this`db
      ensures (db, r) == Read(rct, old(db), c, resource)
    {
      match ConfigOf(rct, c, resource)
      case Err(e) => r := Err(e);
      case Ok(cfg) =>
        r := Ok([]);
        if cfg.isKey {
          r := Err(EPERS_COMMON);
          var handle := DatabaseGet(cfg, c, Values(cfg.policy));
          if handle.Some? {
            if DbKey(c, resource) in db.File(handle.value) {
              r := Ok(db.File(handle.value)[DbKey(c, resource)]);
            } else {
              r := GetDefaults(cfg, c, resource);
            }
          }
        }
    }

    method KeyWriteData(c: Context, resource: string, v: Value) returns (r: Result<nat>)
      modifies this`db
      ensures (db, r) == Write(rct, maxSize, old(db), c, resource, v)
    {
      if |v| > maxSize {
        return Err(EPERS_BUFLIMIT);
      }
      match ConfigOf(rct, c, resource)
      case Err(e) => r := Err(e);
      case Ok(cfg) =>
        r := Ok(0);
        if cfg.isKey {
          if cfg.readOnly {
            r := Err(EPERS_RESOURCE_READ_ONLY);
          } else {
            r := Err(EPERS_NOPRCTABLE);
            var handle := DatabaseGet(cfg, c, Values(cfg.policy));
            if handle.Some? {
              db := Put(db, handle.value, DbKey(c, resource), v);
              r := Ok(|v|);
            }
          }
        }
    }

    method KeyDelete(c: Context, resource: string) returns (r: Result<nat>)
      modifies this`db
      ensures (db, r) == Delete(rct, old(db), c, resource)
    {
      match ConfigOf(rct, c, resource)
      case Err(e) => r := Err(e);
      case Ok(cfg) =>
        r := Ok(0);
        if cfg.isKey {
          r := Err(EPERS_NOPRCTABLE);
          var handle := DatabaseGet(cfg, c, Values(cfg.policy));
          if handle.Some? {
            if DbKey(c, resource) in db.File(handle.value) {
              db := Remove(db, handle.value, DbKey(c, resource));
              r := Ok(0);
            } else {
              r := Err(EPERS_NOKEY);
            }
          }
        }
    }

    /** The loops over the table close every database that is open. */
    method DatabaseCloseAll()
      modifies this`db
      ensures db.slots == map[] && db.files == old(db.files)
    {
      var kinds := [Values(Cached), Values(WriteThrough), ConfDefault, FactoryDefault];
      var i := 0;
      while i < DB_TABLE_SIZE
        invariant 0 <= i <= DB_TABLE_SIZE && db.files == old(db.files)
        invariant forall slot: Slot | slot in db.slots :: slot.0 >= i
      {
        var j := 0;
        while j < 4
          invariant 0 <= j <= 4 && db.files == old(db.files)
          invariant forall slot: Slot | slot in db.slots :: slot.0 >= i && (slot.0 == i ==> slot.1 !in kinds[..j])
        {
          var slot: Slot := (i, kinds[j]);
          if slot in db.slots {
            db := db.(slots := db.slots - {slot});
          }
          j := j + 1;
        }
        forall slot: Slot | slot in db.slots
          ensures slot.0 >= i + 1
        {
          AllKinds(slot.1);
          assert kinds[..4] == kinds;
        }
        i := i + 1;
      }
      assert forall slot: Slot :: slot !in db.slots;
    }
  }

  /** The four columns of the table. */
  lemma AllKinds(kind: Kind)
    ensures kind in [Values(Cached), Values(WriteThrough), ConfDefault, FactoryDefault]
  {
    var kinds := [Values(Cached), Values(WriteThrough), ConfDefault, FactoryDefault];
    assert kind == kinds[if kind.Values? then (if kind.policy.Cached? then 0 else 1) else if kind.ConfDefault? then 2 else 3];
  }

  // ---------- What callers rely on ----------

  datatype Op =
    | ReadOp(c: Context, resource: string)
    | WriteOp(c: Context, resource: string, v: Value)
    | DeleteOp(c: Context, resource: string)
    | CloseOp

  /** What a caller sees of an operation: bytes read, or a return code. */
  datatype Seen = Bytes(v: Value) | Code(n: int)

  function SeenValue(r: Result<Value>): Seen {
    match r case Ok(v) => Bytes(v) case Err(e) => Code(e)
  }

  function SeenCode(r: Result<nat>): Seen {
    match r case Ok(n) => Code(n) case Err(e) => Code(e)
  }

  function Perform(rct: Rct, maxSize: int, db: Db, op: Op): (Db, Seen) {
    match op
    case ReadOp(c, r) => var (d, v) := Read(rct, db, c, r); (d, SeenValue(v))
    case WriteOp(c, r, v) => var (d, n) := Write(rct, maxSize, db, c, r, v); (d, SeenCode(n))
    case DeleteOp(c, r) => var (d, n) := Delete(rct, db, c, r); (d, SeenCode(n))
    case CloseOp => (CloseAll(db), Code(0))
  }

  function Run(rct: Rct, maxSize: int, db: Db, ops: seq<Op>): Db {
    if ops == [] then db else Perform(rct, maxSize, Run(rct, maxSize, db, ops[..|ops| - 1]), ops[|ops| - 1]).0
  }

  /** A configuration and the contexts and resources that are used with it. */
  datatype Use = Use(rct: Rct, places: iset<(Context, string)>)

  /** A key with storage that fits its database id, and an id the table has room for. */
  ghost predicate Usable(u: Use, c: Context, resource: string) {
    && (c, resource) in u.places && c.ldbid < DB_TABLE_SIZE
    && var r := ConfigOf(u.rct, c, resource);
    && r.Ok? && r.value.isKey && r.value.storage == (if c.ldbid < 0x80 then Shared else Local)
  }

  ghost predicate UsableOp(u: Use, op: Op) {
    op.CloseOp? || Usable(u, op.c, op.resource)
  }

  ghost predicate UsableOps(u: Use, ops: seq<Op>) {
    forall op | op in ops :: UsableOp(u, op)
  }

  ghost function Cfg(u: Use, c: Context, resource: string): Config
    requires Usable(u, c, resource)
  {
    ConfigOf(u.rct, c, resource).value
  }

  ghost function ValueKind(u: Use, c: Context, resource: string): Kind
    requires Usable(u, c, resource)
  {
    Values(Cfg(u, c, resource).policy)
  }

  ghost function SlotOf(u: Use, c: Context, resource: string): TableIndex
    requires Usable(u, c, resource)
  {
    SlotIndex(Cfg(u, c, resource), c)
  }

  /** The database of a resource that its own configuration and context name. */
  ghost function OwnPath(u: Use, c: Context, resource: string, kind: Kind): DbPath
    requires Usable(u, c, resource)
  {
    PathOf(Cfg(u, c, resource), c, kind)
  }

  ghost function Lookup(db: Db, p: DbPath, key: string): Option<Value> {
    if key in db.File(p) then Some(db.File(p)[key]) else None
  }

  ghost function Stored(u: Use, db: Db, c: Context, resource: string): Option<Value>
    requires Usable(u, c, resource)
  {
    Lookup(db, OwnPath(u, c, resource, ValueKind(u, c, resource)), DbKey(c, resource))
  }

  ghost function OwnDefault(u: Use, db: Db, c: Context, resource: string): Option<Value>
    requires Usable(u, c, resource)
  {
    var conf := Lookup(db, OwnPath(u, c, resource, ConfDefault), resource);
    if conf.Some? then conf else Lookup(db, OwnPath(u, c, resource, FactoryDefault), resource)
  }

  /** The value at a context after one more operation. */
  ghost function Effect(u: Use, maxSize: int, op: Op, c: Context, resource: string, before: Option<Value>): Option<Value>
    requires UsableOp(u, op)
  {
    if op.CloseOp? || op.c != c || op.resource != resource then before
    else match op
      case WriteOp(_, _, v) => if |v| <= maxSize && !Cfg(u, c, resource).readOnly then Some(v) else before
      case DeleteOp(_, _) => None
      case ReadOp(_, _) => before
  }

  /** The value last written at a context and not deleted since, or there from the beginning. */
  ghost function LastWritten(u: Use, maxSize: int, db: Db, ops: seq<Op>, c: Context, resource: string): Option<Value>
    requires Usable(u, c, resource) && UsableOps(u, ops)
  {
    if ops == [] then Stored(u, db, c, resource)
    else
      Effect(u, maxSize, ops[|ops| - 1], c, resource,
             LastWritten(u, maxSize, db, ops[..|ops| - 1], c, resource))
  }

  /** What an operation returns when the value at its context is `last` and its default `preset`. */
  ghost function Answer(u: Use, maxSize: int, op: Op, last: Option<Value>, preset: Option<Value>): Seen
    requires UsableOp(u, op)
  {
    match op
    case CloseOp => Code(0)
    case ReadOp(_, _) => if last.Some? then Bytes(last.value) else if preset.Some? then Bytes(preset.value) else Code(EPERS_NOKEY)
    case WriteOp(c, r, v) =>
      if |v| > maxSize then Code(EPERS_BUFLIMIT)
      else if Cfg(u, c, r).readOnly then Code(EPERS_RESOURCE_READ_ONLY)
      else Code(|v|)
    case DeleteOp(_, _) => Code(if last.Some? then 0 else EPERS_NOKEY)
  }

  /** The answer callers rely on after `ops`, from databases that start as `db`. */
  ghost function Expected(u: Use, maxSize: int, db: Db, ops: seq<Op>, op: Op): Seen
    requires UsableOps(u, ops) && UsableOp(u, op)
  {
    if op.CloseOp? then Code(0)
    else
      Answer(u, maxSize, op, LastWritten(u, maxSize, db, ops, op.c, op.resource), OwnDefault(u, db, op.c, op.resource))
  }

  // ---------- Which databases are open ----------

  /** If the slot for this resource and kind is filled, then by the resource's own database. */
  ghost predicate Fits(u: Use, db: Db, c: Context, resource: string, kind: Kind)
    requires Usable(u, c, resource)
  {
    var slot: Slot := (SlotOf(u, c, resource), kind);
    slot in db.slots ==> db.slots[slot] == OwnPath(u, c, resource, kind)
  }

  ghost predicate ValueSlots(u: Use, db: Db) {
    forall c, r | Usable(u, c, r) :: Fits(u, db, c, r, ValueKind(u, c, r))
  }

  ghost predicate DefaultSlots(u: Use, db: Db) {
    forall c, r | Usable(u, c, r) :: Fits(u, db, c, r, ConfDefault) && Fits(u, db, c, r, FactoryDefault)
  }

  /** Resources that share a slot for values share the database, and are not taken for each other in it. */
  ghost predicate OneValueDirectory(u: Use) {
    forall c1, r1, c2, r2 | Usable(u, c1, r1) && Usable(u, c2, r2)
        && SlotOf(u, c1, r1) == SlotOf(u, c2, r2) && ValueKind(u, c1, r1) == ValueKind(u, c2, r2) ::
      TableOf(c1.ldbid) == TableOf(c2.ldbid) && !KeyShadows(c1, r1, c2, r2)
  }

  /** Resources that share a slot for defaults share the directory. */
  ghost predicate OneDefaultDirectory(u: Use) {
    forall c1, r1, c2, r2 | Usable(u, c1, r1) && Usable(u, c2, r2)
        && SlotOf(u, c1, r1) == SlotOf(u, c2, r2) ::
      TableOf(c1.ldbid) == TableOf(c2.ldbid) && Cfg(u, c1, r1).policy == Cfg(u, c2, r2).policy
  }

  /**
   Only the shared database 0x7F and the local database 0x80 meet in a slot; else a slot belongs to
   one database id, so that its resources have to agree on a policy.
   */
  lemma SlotsShared(u: Use, c1: Context, r1: string, c2: Context, r2: string)
    requires Usable(u, c1, r1) && Usable(u, c2, r2)
    ensures SlotOf(u, c1, r1) == SlotOf(u, c2, r2) <==>
      c1.ldbid == c2.ldbid || (c1.ldbid == 0x7F && c2.ldbid == 0x80) || (c1.ldbid == 0x80 && c2.ldbid == 0x7F)
  {
    hide ConfigOf;
  }

  /**
   Values are apart exactly if 0x7F and 0x80 are not both used with the same policy, and no resource
   is named like the seat of another of the same policy.
   */
  lemma ValueDirectoriesIff(u: Use)
    ensures OneValueDirectory(u) <==>
      forall c1, r1, c2, r2 | Usable(u, c1, r1) && Usable(u, c2, r2) && Cfg(u, c1, r1).policy == Cfg(u, c2, r2).policy ::
        !(c1.ldbid == 0x7F && c2.ldbid == 0x80) && !KeyShadows(c1, r1, c2, r2)
  {
    hide Usable, SlotOf, Cfg;
    forall c1, r1, c2, r2 | Usable(u, c1, r1) && Usable(u, c2, r2)
      ensures SlotOf(u, c1, r1) == SlotOf(u, c2, r2) <==>
        c1.ldbid == c2.ldbid || (c1.ldbid == 0x7F && c2.ldbid == 0x80) || (c1.ldbid == 0x80 && c2.ldbid == 0x7F)
    {
      SlotsShared(u, c1, r1, c2, r2);
    }
  }

  /** Defaults are apart exactly if 0x7F and 0x80 are not both used and each database id has one policy. */
  lemma DefaultDirectoriesIff(u: Use)
    ensures OneDefaultDirectory(u) <==>
      forall c1, r1, c2, r2 | Usable(u, c1, r1) && Usable(u, c2, r2) ::
        && (c1.ldbid == c2.ldbid ==> Cfg(u, c1, r1).policy == Cfg(u, c2, r2).policy)
        && !(c1.ldbid == 0x7F && c2.ldbid == 0x80)
  {
    hide Usable, SlotOf, Cfg;
    forall c1, r1, c2, r2 | Usable(u, c1, r1) && Usable(u, c2, r2)
      ensures SlotOf(u, c1, r1) == SlotOf(u, c2, r2) <==>
        c1.ldbid == c2.ldbid || (c1.ldbid == 0x7F && c2.ldbid == 0x80) || (c1.ldbid == 0x80 && c2.ldbid == 0x7F)
    {
      SlotsShared(u, c1, r1, c2, r2);
    }
  }

  lemma GetFits(u: Use, db: Db, c1: Context, r1: string, k1: Kind, c: Context, r: string, k: Kind)
    requires Usable(u, c1, r1) && Usable(u, c, r) && Fits(u, db, c, r, k)
    requires SlotOf(u, c1, r1) == SlotOf(u, c, r) && k1 == k ==> OwnPath(u, c1, r1, k) == OwnPath(u, c, r, k)
    ensures Fits(u, Get(db, Cfg(u, c1, r1), c1, k1).0, c, r, k)
  {
    hide Usable, PathOf, SlotIndex;
  }

  /** Opening keeps slots and databases in step where the configuration allows it. */
  lemma GetKeeps(u: Use, db: Db, c: Context, r: string, kind: Kind)
    requires Usable(u, c, r) && OneValueDirectory(u) && ValueSlots(u, db)
    requires kind.Values? ==> kind == ValueKind(u, c, r)
    ensures var db' := Get(db, Cfg(u, c, r), c, kind).0;
      && db'.files == db.files && ValueSlots(u, db')
      && (OneDefaultDirectory(u) && DefaultSlots(u, db) ==> DefaultSlots(u, db'))
  {
    hide Usable, SlotOf, Fits, Get;
    assert Get(db, Cfg(u, c, r), c, kind).0.files == db.files by { GetFiles(db, Cfg(u, c, r), c, kind); }
    forall c', r' | Usable(u, c', r')
      ensures Fits(u, Get(db, Cfg(u, c, r), c, kind).0, c', r', ValueKind(u, c', r'))
    {
      GetFits(u, db, c, r, kind, c', r', ValueKind(u, c', r'));
    }
    if OneDefaultDirectory(u) && DefaultSlots(u, db) {
      forall c', r', k | Usable(u, c', r') && (k == ConfDefault || k == FactoryDefault)
        ensures Fits(u, Get(db, Cfg(u, c, r), c, kind).0, c', r', k)
      {
        GetFits(u, db, c, r, kind, c', r', k);
      }
    }
  }

  lemma GetFiles(db: Db, cfg: Config, c: Context, kind: Kind)
    ensures Get(db, cfg, c, kind).0.files == db.files
  {
  }

  /** A usable resource gets a database, and its own one if the slot fits. */
  lemma GetOwn(u: Use, db: Db, c: Context, r: string, kind: Kind)
    requires Usable(u, c, r)
    ensures Get(db, Cfg(u, c, r), c, kind).1.Some?
    ensures Fits(u, db, c, r, kind) ==> Get(db, Cfg(u, c, r), c, kind).1 == Some(OwnPath(u, c, r, kind))
  {
  }

  // ---------- One operation ----------

  /** Different places have different databases or different keys. */
  lemma PlacesDiffer(u: Use, c1: Context, r1: string, c2: Context, r2: string)
    requires OneValueDirectory(u) && Usable(u, c1, r1) && Usable(u, c2, r2) && DbKey(c1, r1) == DbKey(c2, r2)
    requires OwnPath(u, c1, r1, ValueKind(u, c1, r1)) == OwnPath(u, c2, r2, ValueKind(u, c2, r2))
    ensures c1 == c2 && r1 == r2
  {
    KeysEqual(c1, r1, c2, r2);
  }

  lemma LookupAfter(db: Db, p: DbPath, k: string, v: Value, q: DbPath, x: string)
    ensures Lookup(Put(db, p, k, v), q, x) == if q == p && x == k then Some(v) else Lookup(db, q, x)
    ensures Lookup(Remove(db, p, k), q, x) == if q == p && x == k then None else Lookup(db, q, x)
  {
  }

  /** A write or delete at one context leaves the values of all others and all defaults alone. */
  lemma Elsewhere(u: Use, db: Db, c: Context, r: string, v: Value, c': Context, r': string)
    requires OneValueDirectory(u) && Usable(u, c, r) && Usable(u, c', r')
    ensures var p, k := OwnPath(u, c, r, ValueKind(u, c, r)), DbKey(c, r);
      var was, same := Stored(u, db, c', r'), c' == c && r' == r;
      && Stored(u, Put(db, p, k, v), c', r') == (if same then Some(v) else was)
      && Stored(u, Remove(db, p, k), c', r') == (if same then None else was)
      && OwnDefault(u, Put(db, p, k, v), c', r') == OwnDefault(u, db, c', r')
      && OwnDefault(u, Remove(db, p, k), c', r') == OwnDefault(u, db, c', r')
  {
    hide DbKey, Usable, TableOf, Lookup, Put, Remove, Cfg;
    var p, k := OwnPath(u, c, r, ValueKind(u, c, r)), DbKey(c, r);
    var q, k' := OwnPath(u, c', r', ValueKind(u, c', r')), DbKey(c', r');
    LookupAfter(db, p, k, v, q, k');
    LookupAfter(db, p, k, v, OwnPath(u, c', r', ConfDefault), r');
    LookupAfter(db, p, k, v, OwnPath(u, c', r', FactoryDefault), r');
    if q == p && k' == k {
      PlacesDiffer(u, c, r, c', r');
    }
  }

  /** The same files hold the same values. */
  lemma SameFiles(u: Use, db: Db, db': Db, c: Context, r: string)
    requires Usable(u, c, r) && db'.files == db.files
    ensures Stored(u, db', c, r) == Stored(u, db, c, r) && OwnDefault(u, db', c, r) == OwnDefault(u, db, c, r)
  {
    hide DbKey, Usable, OwnPath, ValueKind;
  }

  lemma DefaultKeeps(u: Use, db: Db, c: Context, r: string)
    requires Usable(u, c, r) && OneValueDirectory(u) && ValueSlots(u, db)
    ensures var db' := Default(db, Cfg(u, c, r), c, r).0;
      && db'.files == db.files && ValueSlots(u, db')
      && (OneDefaultDirectory(u) && DefaultSlots(u, db) ==> DefaultSlots(u, db'))
  {
    hide Usable, ValueSlots, DefaultSlots, OneValueDirectory, OneDefaultDirectory, Get, Cfg;
    GetKeeps(u, db, c, r, ConfDefault);
    var db1 := Get(db, Cfg(u, c, r), c, ConfDefault).0;
    GetKeeps(u, db1, c, r, FactoryDefault);
  }

  lemma DefaultOwn(u: Use, db: Db, c: Context, r: string)
    requires Usable(u, c, r) && OneValueDirectory(u) && OneDefaultDirectory(u)
    requires ValueSlots(u, db) && DefaultSlots(u, db)
    ensures var d := OwnDefault(u, db, c, r);
      Default(db, Cfg(u, c, r), c, r).1 == if d.Some? then Ok(d.value) else Err(EPERS_NOKEY)
  {
    GetKeeps(u, db, c, r, ConfDefault);
    GetOwn(u, db, c, r, ConfDefault);
    var db1 := Get(db, Cfg(u, c, r), c, ConfDefault).0;
    GetOwn(u, db1, c, r, FactoryDefault);
    GetFiles(db1, Cfg(u, c, r), c, FactoryDefault);
    assert Fits(u, db, c, r, ConfDefault) && Fits(u, db1, c, r, FactoryDefault);
    hide Usable, ValueSlots, DefaultSlots, OneValueDirectory, OneDefaultDirectory, Get, Cfg, OwnPath, Fits;
  }

  /** After one operation all values and defaults are what its effect says, and slots still fit. */
  lemma StepKeeps(u: Use, maxSize: int, db: Db, op: Op)
    requires UsableOp(u, op) && OneValueDirectory(u) && ValueSlots(u, db)
    ensures var db' := Perform(u.rct, maxSize, db, op).0;
      && ValueSlots(u, db')
      && (OneDefaultDirectory(u) && DefaultSlots(u, db) ==> DefaultSlots(u, db'))
  {
    if !op.CloseOp? {
      var c, r := op.c, op.resource;
      var kind := ValueKind(u, c, r);
      GetKeeps(u, db, c, r, kind);
      GetOwn(u, db, c, r, kind);
      var db1 := Get(db, Cfg(u, c, r), c, kind).0;
      DefaultKeeps(u, db1, c, r);
      assert Cfg(u, c, r).isKey;
      hide Usable, OneValueDirectory, OneDefaultDirectory, Get, Default, DbKey, ConfigOf;
    }
  }

  /** The files after an operation: changed at the resource's own place or not at all. */
  lemma FilesAfter(u: Use, maxSize: int, db: Db, op: Op)
    requires UsableOp(u, op) && !op.CloseOp? && OneValueDirectory(u) && ValueSlots(u, db)
    ensures var c, r := op.c, op.resource;
      var p, k := OwnPath(u, c, r, ValueKind(u, c, r)), DbKey(c, r);
      var files := Perform(u.rct, maxSize, db, op).0.files;
      match op
      case WriteOp(_, _, v) =>
        files == if |v| <= maxSize && !Cfg(u, c, r).readOnly then Put(db, p, k, v).files else db.files
      case DeleteOp(_, _) => files == if Stored(u, db, c, r).Some? then Remove(db, p, k).files else db.files
      case _ => files == db.files
  {
    var c, r := op.c, op.resource;
    var kind := ValueKind(u, c, r);
    GetKeeps(u, db, c, r, kind);
    GetOwn(u, db, c, r, kind);
    var db1 := Get(db, Cfg(u, c, r), c, kind).0;
    DefaultKeeps(u, db1, c, r);
    assert Cfg(u, c, r).isKey && Fits(u, db, c, r, kind);
    hide Usable, OneValueDirectory, OneDefaultDirectory, ValueSlots, Get, Default, DbKey, ConfigOf, Fits, OwnPath, SlotOf, PathOf;
  }

  lemma StepStores(u: Use, maxSize: int, db: Db, op: Op, c: Context, r: string)
    requires UsableOp(u, op) && Usable(u, c, r) && OneValueDirectory(u) && ValueSlots(u, db)
    ensures var db' := Perform(u.rct, maxSize, db, op).0;
      && Stored(u, db', c, r) == Effect(u, maxSize, op, c, r, Stored(u, db, c, r))
      && OwnDefault(u, db', c, r) == OwnDefault(u, db, c, r)
  {
    var db' := Perform(u.rct, maxSize, db, op).0;
    if op.CloseOp? {
      SameFiles(u, db, db', c, r);
    } else {
      FilesAfter(u, maxSize, db, op);
      hide Perform, Usable, OneValueDirectory, ValueSlots, DbKey, OwnDefault, Stored, OwnPath, ValueKind, Cfg, Put, Remove;
      var p, k := OwnPath(u, op.c, op.resource, ValueKind(u, op.c, op.resource)), DbKey(op.c, op.resource);
      Elsewhere(u, db, op.c, op.resource, if op.WriteOp? then op.v else [], c, r);
      forall d: Db | d.files == db'.files
        ensures Stored(u, d, c, r) == Stored(u, db', c, r) && OwnDefault(u, d, c, r) == OwnDefault(u, db', c, r)
      {
        SameFiles(u, db', d, c, r);
      }
    }
  }

  /** An operation answers from the values at its own place. */
  lemma StepAnswers(u: Use, maxSize: int, db: Db, op: Op)
    requires UsableOp(u, op) && !op.CloseOp? && OneValueDirectory(u) && ValueSlots(u, db)
    requires op.ReadOp? ==>
      Stored(u, db, op.c, op.resource).Some? || (OneDefaultDirectory(u) && DefaultSlots(u, db))
    ensures Perform(u.rct, maxSize, db, op).1 ==
      Answer(u, maxSize, op, Stored(u, db, op.c, op.resource), OwnDefault(u, db, op.c, op.resource))
  {
    var c, r := op.c, op.resource;
    var kind := ValueKind(u, c, r);
    GetKeeps(u, db, c, r, kind);
    GetOwn(u, db, c, r, kind);
    var db1 := Get(db, Cfg(u, c, r), c, kind).0;
    SameFiles(u, db, db1, c, r);
    assert Fits(u, db, c, r, kind) && Cfg(u, c, r).isKey;
    if op.ReadOp? && Stored(u, db, c, r).None? {
      DefaultOwn(u, db1, c, r);
    }
    hide Usable, OneValueDirectory, OneDefaultDirectory, ValueSlots, DefaultSlots, Get, Default, DbKey, ConfigOf, OwnDefault, Put, Remove;
  }

  // ---------- All runs ----------

  /** In every run values and defaults are as last written, and slots fit, whatever is open. */
  lemma {:induction false} RunKeeps(u: Use, maxSize: int, db: Db, ops: seq<Op>)
    requires OneValueDirectory(u) && UsableOps(u, ops) && db.slots == map[]
    ensures var db' := Run(u.rct, maxSize, db, ops);
      && ValueSlots(u, db') && (OneDefaultDirectory(u) ==> DefaultSlots(u, db'))
      && forall c, r | Usable(u, c, r) ::
           Stored(u, db', c, r) == LastWritten(u, maxSize, db, ops, c, r)
           && OwnDefault(u, db', c, r) == OwnDefault(u, db, c, r)
  {
    hide Usable, Stored, OwnDefault, Perform, Effect, OneValueDirectory, OneDefaultDirectory;
    if ops != [] {
      var front, op := ops[..|ops| - 1], ops[|ops| - 1];
      RunKeeps(u, maxSize, db, front);
      var db1 := Run(u.rct, maxSize, db, front);
      hide ValueSlots, DefaultSlots, UsableOp;
      StepKeeps(u, maxSize, db1, op);
      forall c, r | Usable(u, c, r)
        ensures
          && Stored(u, Perform(u.rct, maxSize, db1, op).0, c, r) == LastWritten(u, maxSize, db, ops, c, r)
          && OwnDefault(u, Perform(u.rct, maxSize, db1, op).0, c, r) == OwnDefault(u, db, c, r)
      {
        StepStores(u, maxSize, db1, op, c, r);
      }
    }
  }

  /** Written values are read back, and writes and deletes answer rightly, in every run. */
  ghost predicate ValuesRight(u: Use, maxSize: int) {
    forall db: Db, ops: seq<Op>, op: Op | UsableOps(u, ops) && UsableOp(u, op) && db.slots == map[] && !op.CloseOp?
        && (op.ReadOp? ==> LastWritten(u, maxSize, db, ops, op.c, op.resource).Some?) ::
      Perform(u.rct, maxSize, Run(u.rct, maxSize, db, ops), op).1 == Expected(u, maxSize, db, ops, op)
  }

  /** Every operation answers rightly in every run, also where defaults are read. */
  ghost predicate AllRight(u: Use, maxSize: int) {
    forall db: Db, ops: seq<Op>, op: Op | UsableOps(u, ops) && UsableOp(u, op) && db.slots == map[] ::
      Perform(u.rct, maxSize, Run(u.rct, maxSize, db, ops), op).1 == Expected(u, maxSize, db, ops, op)
  }

  lemma RunAnswers(u: Use, maxSize: int, db: Db, ops: seq<Op>, op: Op)
    requires OneValueDirectory(u) && UsableOps(u, ops) && UsableOp(u, op) && db.slots == map[]
    requires op.ReadOp? ==>
      OneDefaultDirectory(u) || LastWritten(u, maxSize, db, ops, op.c, op.resource).Some?
    ensures Perform(u.rct, maxSize, Run(u.rct, maxSize, db, ops), op).1 == Expected(u, maxSize, db, ops, op)
  {
    if !op.CloseOp? {
      RunKeeps(u, maxSize, db, ops);
      hide Usable, Stored, OwnDefault, Perform, Effect, OneValueDirectory, OneDefaultDirectory, ValueSlots, DefaultSlots, LastWritten, Run, Answer;
      StepAnswers(u, maxSize, Run(u.rct, maxSize, db, ops), op);
    }
  }

  ghost predicate KindsMatch(db: Db) {
    forall slot: Slot | slot in db.slots :: db.slots[slot].kind == slot.1
  }

  /** Only database `p` holds anything. */
  ghost predicate OnlyAt(db: Db, p: DbPath) {
    forall q | q != p :: db.File(q) == map[]
  }

  /** What a slot leads to, now or once it is opened. */
  ghost function Reaches(u: Use, db: Db, c: Context, r: string, kind: Kind): Option<DbPath>
    requires Usable(u, c, r)
  {
    Get(db, Cfg(u, c, r), c, kind).1
  }

  /** Opening a slot changes no file and does not change what any slot leads to. */
  lemma GetAgain(u: Use, db: Db, c: Context, r: string, kind: Kind, p: DbPath, other: Kind)
    requires Usable(u, c, r) && KindsMatch(db) && OnlyAt(db, p)
    ensures var db1 := Get(db, Cfg(u, c, r), c, kind).0;
      var slot: Slot, slot1: Slot := (SlotOf(u, c, r), kind), (SlotOf(u, c, r), other);
      && KindsMatch(db1) && OnlyAt(db1, p)
      && slot in db1.slots && Reaches(u, db, c, r, kind) == Some(db1.slots[slot]) && db1.slots[slot].kind == kind
      && (slot1 in db.slots ==> slot1 in db1.slots && db1.slots[slot1] == db.slots[slot1])
      && Reaches(u, db1, c, r, other) == Reaches(u, db, c, r, other)
  {
    var db1 := Get(db, Cfg(u, c, r), c, kind).0;
    assert forall q :: db1.File(q) == db.File(q);
  }

  /** The step shared by the three look-ups of a read. */
  lemma Misses(u: Use, db: Db, c: Context, r: string, kind: Kind, p: DbPath, other: Kind, key: string)
    requires Usable(u, c, r) && KindsMatch(db) && OnlyAt(db, p) && Reaches(u, db, c, r, p.kind) != Some(p)
    ensures var (db1, path) := Get(db, Cfg(u, c, r), c, kind);
      var slot: Slot, slot1: Slot := (SlotOf(u, c, r), kind), (SlotOf(u, c, r), other);
      && KindsMatch(db1) && OnlyAt(db1, p) && Reaches(u, db1, c, r, p.kind) != Some(p)
      && path.Some? && key !in db1.File(path.value)
      && slot in db1.slots && path == Some(db1.slots[slot])
      && (slot1 in db.slots ==> slot1 in db1.slots && db1.slots[slot1] == db.slots[slot1])
      && Reaches(u, db1, c, r, other) == Reaches(u, db, c, r, other)
  {
    GetAgain(u, db, c, r, kind, p, other);
    GetAgain(u, db, c, r, kind, p, p.kind);
    hide Get, KindsMatch, SlotOf, Cfg, Usable;
    var (db1, path) := Get(db, Cfg(u, c, r), c, kind);
    assert path == Reaches(u, db, c, r, kind);
    assert path.value.kind == kind && path != Some(p);
  }

  /** With a single filled database that is not the one its slot leads to, nothing is read. */
  lemma ReadMisses(u: Use, db: Db, c: Context, r: string, p: DbPath, kind: Kind)
    requires Usable(u, c, r) && KindsMatch(db) && OnlyAt(db, p)
    requires Reaches(u, db, c, r, p.kind) != Some(p)
    requires kind == ConfDefault || kind == ValueKind(u, c, r)
    ensures var (db', v) := Read(u.rct, db, c, r);
      var slot: Slot := (SlotOf(u, c, r), kind);
      && v == Err(EPERS_NOKEY) && OnlyAt(db', p) && KindsMatch(db')
      && slot in db'.slots && Reaches(u, db, c, r, kind) == Some(db'.slots[slot])
  {
    var cfg := Cfg(u, c, r);
    assert ConfigOf(u.rct, c, r) == Ok(cfg) && cfg.isKey;
    var values := Values(cfg.policy);
    assert values == ValueKind(u, c, r);
    hide Usable, DbKey, Get, KindsMatch, ConfigOf, Cfg, SlotOf, OnlyAt, ValueKind;
    var db1 := Get(db, cfg, c, values).0;
    var db2 := Get(db1, cfg, c, ConfDefault).0;
    Misses(u, db, c, r, values, p, kind, DbKey(c, r));
    Misses(u, db1, c, r, ConfDefault, p, kind, r);
    Misses(u, db2, c, r, FactoryDefault, p, kind, r);
  }

  lemma SameSlot(u: Use, db: Db, c1: Context, r1: string, c2: Context, r2: string, kind: Kind)
    requires Usable(u, c1, r1) && Usable(u, c2, r2) && SlotOf(u, c1, r1) == SlotOf(u, c2, r2)
    requires var slot: Slot := (SlotOf(u, c1, r1), kind); slot in db.slots
    ensures var slot: Slot := (SlotOf(u, c1, r1), kind);
      Get(db, Cfg(u, c2, r2), c2, kind).1 == Some(db.slots[slot])
  {
  }

  /**
   If reading one resource fills the slot of another with a foreign database, the other's content is
   out of reach.
   */
  lemma ForeignSlot(u: Use, maxSize: int, c1: Context, r1: string, c2: Context, r2: string, kind: Kind)
    requires Usable(u, c1, r1) && Usable(u, c2, r2) && SlotOf(u, c1, r1) == SlotOf(u, c2, r2)
    requires kind == ConfDefault || (kind == ValueKind(u, c1, r1) && kind == ValueKind(u, c2, r2))
    requires OwnPath(u, c1, r1, kind) != OwnPath(u, c2, r2, kind)
    ensures exists db: Db ::
      && db.slots == map[]
      && Perform(u.rct, maxSize, Run(u.rct, maxSize, db, [ReadOp(c1, r1)]), ReadOp(c2, r2)).1 == Code(EPERS_NOKEY)
      && Expected(u, maxSize, db, [ReadOp(c1, r1)], ReadOp(c2, r2)) == Bytes([1])
      && (kind.Values? ==> LastWritten(u, maxSize, db, [ReadOp(c1, r1)], c2, r2).Some?)
  {
    hide Usable, DbKey;
    var p := OwnPath(u, c2, r2, kind);
    var db := Db(map[], map[p := map[(if kind.Values? then DbKey(c2, r2) else r2) := [1]]]);
    GetOwn(u, db, c1, r1, kind);
    assert OnlyAt(db, p) && KindsMatch(db);
    hide OwnPath, SlotOf, KindsMatch;
    var db1 := Read(u.rct, db, c1, r1).0;
    assert Stored(u, db, c2, r2) == if kind.Values? then Some([1]) else None;
    assert !kind.Values? ==> OwnDefault(u, db, c2, r2) == Some([1]);
    hide Get, Cfg, PathOf, Read, Lookup;
    ReadMisses(u, db, c1, r1, p, kind);
    SameSlot(u, db1, c1, r1, c2, r2, kind);
    ReadMisses(u, db1, c2, r2, p, kind);
    var ops := [ReadOp(c1, r1)];
    assert ops[..0] == [] && Run(u.rct, maxSize, db, []) == db;
    assert Run(u.rct, maxSize, db, ops) == db1;
    assert LastWritten(u, maxSize, db, [], c2, r2) == Stored(u, db, c2, r2);
  }

  /** A store with one value, and what is left when it has been deleted. */
  lemma OneValueDeleted(u: Use, c: Context, r: string, v: Value)
    requires Usable(u, c, r)
    ensures var kind := ValueKind(u, c, r);
      var p, slot: Slot := OwnPath(u, c, r, kind), (SlotOf(u, c, r), kind);
      Delete(u.rct, Db(map[], map[p := map[DbKey(c, r) := v]]), c, r)
        == (Db(map[slot := p], map[p := map[]]), Ok(0))
  {
    hide DbKey;
    var p := OwnPath(u, c, r, ValueKind(u, c, r));
    var m := map[DbKey(c, r) := v];
    assert m - {DbKey(c, r)} == map[];
    var db := Db(map[], map[p := m]);
    GetOwn(u, db, c, r, ValueKind(u, c, r));
    var slot: Slot := (SlotOf(u, c, r), ValueKind(u, c, r));
    assert Get(db, Cfg(u, c, r), c, ValueKind(u, c, r)).0 == Db(map[slot := p], db.files);
    assert db.files[p := map[]] == map[p := map[]];
  }

  /** With nothing in any file, and only the slot for its own values filled, nothing is read. */
  lemma NothingRead(u: Use, db: Db, c: Context, r: string)
    requires Usable(u, c, r)
    requires var kind := ValueKind(u, c, r);
      var p, slot: Slot := OwnPath(u, c, r, kind), (SlotOf(u, c, r), kind);
      db == Db(map[slot := p], map[p := map[]])
    ensures Read(u.rct, db, c, r).1 == Err(EPERS_NOKEY)
  {
    var p := DbPath(GroupTable(0), Cached, FactoryDefault);
    assert TableOf(c.ldbid) != p.table;
    assert forall q :: db.File(q) == map[];
    ReadMisses(u, db, c, r, p, ConfDefault);
  }

  /** Deleting a value deletes that of a resource whose key it shares. */
  lemma ShadowClash(u: Use, maxSize: int, c1: Context, r1: string, c2: Context, r2: string)
    requires Usable(u, c1, r1) && Usable(u, c2, r2) && KeyShadows(c1, r1, c2, r2)
    requires ValueKind(u, c1, r1) == ValueKind(u, c2, r2)
    ensures exists db: Db ::
      && db.slots == map[]
      && Perform(u.rct, maxSize, Run(u.rct, maxSize, db, [DeleteOp(c1, r1)]), ReadOp(c2, r2)).1 == Code(EPERS_NOKEY)
      && Expected(u, maxSize, db, [DeleteOp(c1, r1)], ReadOp(c2, r2)) == Bytes([1])
      && LastWritten(u, maxSize, db, [DeleteOp(c1, r1)], c2, r2).Some?
  {
    KeysEqual(c1, r1, c2, r2);
    var kind, ops := ValueKind(u, c1, r1), [DeleteOp(c1, r1)];
    var p := OwnPath(u, c1, r1, kind);
    assert p == OwnPath(u, c2, r2, kind) && SlotOf(u, c1, r1) == SlotOf(u, c2, r2) && c1 != c2;
    var db := Db(map[], map[p := map[DbKey(c1, r1) := [1]]]);
    assert Stored(u, db, c2, r2) == Some([1]);
    OneValueDeleted(u, c1, r1, [1]);
    var db1 := Delete(u.rct, db, c1, r1).0;
    NothingRead(u, db1, c2, r2);
    hide DbKey, Usable, Delete, Read, Stored, SlotOf, ValueKind, OwnPath;
    assert ops[..0] == [] && Run(u.rct, maxSize, db, []) == db && Run(u.rct, maxSize, db, ops) == db1;
    assert LastWritten(u, maxSize, db, [], c2, r2) == Stored(u, db, c2, r2);
  }

  /** Values survive every run exactly if no two databases share a slot and no two resources a key. */
  lemma ValuesRightIff(u: Use, maxSize: int)
    ensures ValuesRight(u, maxSize) <==> OneValueDirectory(u)
  {
    if OneValueDirectory(u) {
      forall db: Db, ops: seq<Op>, op: Op | UsableOps(u, ops) && UsableOp(u, op) && db.slots == map[] && !op.CloseOp?
          && (op.ReadOp? ==> LastWritten(u, maxSize, db, ops, op.c, op.resource).Some?)
        ensures Perform(u.rct, maxSize, Run(u.rct, maxSize, db, ops), op).1 == Expected(u, maxSize, db, ops, op)
      {
        RunAnswers(u, maxSize, db, ops, op);
      }
    } else {
      var db, ops, op := ValueClash(u, maxSize);
    }
  }

  lemma ValueClash(u: Use, maxSize: int) returns (db: Db, ops: seq<Op>, op: Op)
    requires !OneValueDirectory(u)
    ensures UsableOps(u, ops) && UsableOp(u, op) && db.slots == map[] && op.ReadOp?
    ensures LastWritten(u, maxSize, db, ops, op.c, op.resource).Some?
    ensures Perform(u.rct, maxSize, Run(u.rct, maxSize, db, ops), op).1 != Expected(u, maxSize, db, ops, op)
  {
    var c1, r1, c2, r2 :| Usable(u, c1, r1) && Usable(u, c2, r2)
      && SlotOf(u, c1, r1) == SlotOf(u, c2, r2) && ValueKind(u, c1, r1) == ValueKind(u, c2, r2)
      && !(TableOf(c1.ldbid) == TableOf(c2.ldbid) && !KeyShadows(c1, r1, c2, r2));
    op := ReadOp(c2, r2);
    if TableOf(c1.ldbid) != TableOf(c2.ldbid) {
      ForeignSlot(u, maxSize, c1, r1, c2, r2, ValueKind(u, c1, r1));
      ops := [ReadOp(c1, r1)];
      hide Perform, Run, Expected, LastWritten, Usable;
      db :| db.slots == map[]
        && Perform(u.rct, maxSize, Run(u.rct, maxSize, db, [ReadOp(c1, r1)]), ReadOp(c2, r2)).1 == Code(EPERS_NOKEY)
        && Expected(u, maxSize, db, [ReadOp(c1, r1)], ReadOp(c2, r2)) == Bytes([1])
        && LastWritten(u, maxSize, db, [ReadOp(c1, r1)], c2, r2).Some?;
    } else {
      ShadowClash(u, maxSize, c1, r1, c2, r2);
      ops := [DeleteOp(c1, r1)];
      hide Perform, Run, Expected, LastWritten, Usable;
      db :| db.slots == map[]
        && Perform(u.rct, maxSize, Run(u.rct, maxSize, db, [DeleteOp(c1, r1)]), ReadOp(c2, r2)).1 == Code(EPERS_NOKEY)
        && Expected(u, maxSize, db, [DeleteOp(c1, r1)], ReadOp(c2, r2)) == Bytes([1])
        && LastWritten(u, maxSize, db, [DeleteOp(c1, r1)], c2, r2).Some?;
    }
  }

  /** Defaults too are right in every run exactly if, besides, no two directories share a slot for them. */
  lemma AllRightIff(u: Use, maxSize: int)
    ensures AllRight(u, maxSize) <==> OneValueDirectory(u) && OneDefaultDirectory(u)
  {
    if OneValueDirectory(u) && OneDefaultDirectory(u) {
      forall db: Db, ops: seq<Op>, op: Op | UsableOps(u, ops) && UsableOp(u, op) && db.slots == map[]
        ensures Perform(u.rct, maxSize, Run(u.rct, maxSize, db, ops), op).1 == Expected(u, maxSize, db, ops, op)
      {
        RunAnswers(u, maxSize, db, ops, op);
      }
    } else if !OneValueDirectory(u) {
      var db, ops, op := ValueClash(u, maxSize);
    } else {
      var c1, r1, c2, r2 :| Usable(u, c1, r1) && Usable(u, c2, r2)
        && SlotOf(u, c1, r1) == SlotOf(u, c2, r2)
        && !(TableOf(c1.ldbid) == TableOf(c2.ldbid) && Cfg(u, c1, r1).policy == Cfg(u, c2, r2).policy);
      ForeignSlot(u, maxSize, c1, r1, c2, r2, ConfDefault);
      hide Perform, Run, Expected, LastWritten, Usable, OneValueDirectory, OneDefaultDirectory;
    }
  }

  // ---------- Read-only resources ----------

  /** Only a deletion ends the value of a read-only resource, and nothing brings it back. */
  lemma {:induction false} ReadOnlyValue(u: Use, maxSize: int, db: Db, ops: seq<Op>, c: Context, r: string)
    requires Usable(u, c, r) && UsableOps(u, ops) && Cfg(u, c, r).readOnly
    ensures LastWritten(u, maxSize, db, ops, c, r) == if DeleteOp(c, r) in ops then None else Stored(u, db, c, r)
    decreases |ops|
  {
    hide Usable, Stored, Cfg, UsableOp;
    if ops != [] {
      var n := |ops| - 1;
      assert ops == ops[..n] + [ops[n]];
      assert UsableOp(u, ops[n]);
      ReadOnlyValue(u, maxSize, db, ops[..n], c, r);
    }
  }

  /** A run leaves a read-only resource as it was exactly if it deletes nothing there. */
  lemma ReadOnlyIff(u: Use, maxSize: int, db: Db, ops: seq<Op>, c: Context, r: string)
    requires OneValueDirectory(u) && Usable(u, c, r) && UsableOps(u, ops) && Cfg(u, c, r).readOnly && db.slots == map[]
    ensures Stored(u, Run(u.rct, maxSize, db, ops), c, r) == Stored(u, db, c, r)
      <==> DeleteOp(c, r) !in ops || Stored(u, db, c, r).None?
  {
    ReadOnlyValue(u, maxSize, db, ops, c, r);
    RunKeeps(u, maxSize, db, ops);
    hide *;
  }

  /** A read-only value that cannot be written, and is deleted. */
  lemma ReadOnlyDeleted(maxSize: int, v: Value)
    requires |v| <= maxSize
    ensures var cfg, c := Config(Cached, Local, true, true), Context(0xFF, 0, 0);
      var rct: Rct := map[LocalTable := map["a" := cfg]];
      var db := Db(map[], map[PathOf(cfg, c, Values(Cached)) := map[DbKey(c, "a") := v]]);
      && Perform(rct, maxSize, db, WriteOp(c, "a", v)).1 == Code(EPERS_RESOURCE_READ_ONLY)
      && Perform(rct, maxSize, db, DeleteOp(c, "a")).1 == Code(0)
      && Perform(rct, maxSize, db, ReadOp(c, "a")).1 == Bytes(v)
      && Perform(rct, maxSize, Perform(rct, maxSize, db, DeleteOp(c, "a")).0, ReadOp(c, "a")).1 == Code(EPERS_NOKEY)
  {
    hide DbKey;
  }

  // ---------- What the table says, resource by resource ----------

  /** The table for a database id: local from 0x80 on, public for 0, else that of the group. */
  ghost predicate ListedAs(rct: Rct, c: Context, resource: string, cfg: Config) {
    exists table :: table in rct && resource in rct[table] && rct[table][resource] == cfg && OfId(table, c.ldbid)
  }

  predicate OfId(table: Table, ldbid: UInt) {
    match table
    case LocalTable => ldbid >= 0x80
    case PublicTable => ldbid == 0
    case GroupTable(group) => 0 < ldbid < 0x80 && group == ldbid
  }

  ghost predicate HasTable(rct: Rct, ldbid: UInt) {
    exists table :: table in rct && OfId(table, ldbid)
  }

  lemma OfIdIs(table: Table, ldbid: UInt)
    ensures OfId(table, ldbid) <==> table == TableOf(ldbid)
  {
  }

  lemma ListedIff(rct: Rct, c: Context, resource: string)
    ensures forall cfg :: ListedAs(rct, c, resource, cfg) <==>
              var table := TableOf(c.ldbid);
              table in rct && resource in rct[table] && rct[table][resource] == cfg
  {
    forall table
      ensures OfId(table, c.ldbid) <==> table == TableOf(c.ldbid)
    {
      OfIdIs(table, c.ldbid);
    }
    hide OfId, TableOf;
  }

  lemma ListedHere(rct: Rct, c: Context, resource: string)
    ensures var table := TableOf(c.ldbid);
      table in rct && resource in rct[table] ==> ListedAs(rct, c, resource, rct[table][resource])
  {
    ListedIff(rct, c, resource);
  }

  lemma NotListed(rct: Rct, c: Context, resource: string)
    requires forall cfg :: !ListedAs(rct, c, resource, cfg)
    ensures !(TableOf(c.ldbid) in rct && resource in rct[TableOf(c.ldbid)])
  {
    ListedHere(rct, c, resource);
  }

  /** A value can be written, is then read back, and can be deleted; only then is it gone. */
  ghost predicate Keeps(rct: Rct, maxSize: int, db: Db, c: Context, resource: string, v: Value) {
    var (db1, written) := Write(rct, maxSize, db, c, resource, v);
    var (db2, found) := Read(rct, db1, c, resource);
    var (db3, deleted) := Delete(rct, db2, c, resource);
    && written == Ok(|v|) && found == Ok(v) && deleted == Ok(0)
    && Delete(rct, db3, c, resource).1 == Err(-7)
  }

  /** Whatever databases are open: a key that may be written keeps what is written to it. */
  lemma KeepsIf(rct: Rct, maxSize: int, db: Db, c: Context, resource: string, v: Value, cfg: Config)
    requires ConfigOf(rct, c, resource) == Ok(cfg) && cfg.isKey && !cfg.readOnly && |v| <= maxSize
    requires SlotIndex(cfg, c) < DB_TABLE_SIZE
    ensures Keeps(rct, maxSize, db, c, resource, v)
  {
    hide ConfigOf, DbKey, PathOf;
  }

  /** A resource of database 0xFF that no table lists is a local key that can be read and written. */
  lemma UnlistedLocal(rct: Rct, maxSize: int, db: Db, c: Context, resource: string, v: Value)
    requires c.ldbid == 0xFF && |v| <= maxSize && forall cfg :: !ListedAs(rct, c, resource, cfg)
    ensures Keeps(rct, maxSize, db, c, resource, v)
  {
    NotListed(rct, c, resource);
    KeepsIf(rct, maxSize, db, c, resource, v, Config(Cached, Local, false, true));
  }

  /** With no database open, a value goes to the database of its table and policy, and nowhere else. */
  lemma WrittenWhere(rct: Rct, maxSize: int, db: Db, c: Context, resource: string, v: Value, cfg: Config)
    requires ConfigOf(rct, c, resource) == Ok(cfg) && cfg.isKey && !cfg.readOnly && |v| <= maxSize
    requires SlotIndex(cfg, c) < DB_TABLE_SIZE && db.slots == map[]
    ensures var p := DbPath(TableOf(c.ldbid), cfg.policy, Values(cfg.policy));
      forall q :: Write(rct, maxSize, db, c, resource, v).0.File(q)
               == if q == p then db.File(p)[DbKey(c, resource) := v] else db.File(q)
  {
    hide ConfigOf, DbKey;
  }

  /** Unlisted resources of 0xFF go to the cached local database, and fit every use. */
  lemma UnlistedWhere(u: Use, maxSize: int, db: Db, c: Context, resource: string, v: Value)
    requires c.ldbid == 0xFF && |v| <= maxSize && db.slots == map[]
    requires forall cfg :: !ListedAs(u.rct, c, resource, cfg)
    ensures (c, resource) in u.places ==> Usable(u, c, resource)
    ensures var p := DbPath(LocalTable, Cached, Values(Cached));
      forall q :: Write(u.rct, maxSize, db, c, resource, v).0.File(q)
               == if q == p then db.File(p)[DbKey(c, resource) := v] else db.File(q)
  {
    NotListed(u.rct, c, resource);
    hide DbKey;
    WrittenWhere(u.rct, maxSize, db, c, resource, v, Config(Cached, Local, false, true));
  }

  /** A listed resource behaves by its own entry. */
  lemma ListedBehaves(rct: Rct, maxSize: int, db: Db, c: Context, resource: string, v: Value, cfg: Config)
    requires ListedAs(rct, c, resource, cfg) && |v| <= maxSize && c.ldbid < 1023
    ensures cfg.isKey && !cfg.readOnly ==> Keeps(rct, maxSize, db, c, resource, v)
    ensures cfg.isKey && !cfg.readOnly && db.slots == map[] ==>
      exists table :: OfId(table, c.ldbid)
        && var p := DbPath(table, cfg.policy, Values(cfg.policy));
           Write(rct, maxSize, db, c, resource, v).0.File(p) == db.File(p)[DbKey(c, resource) := v]
    ensures cfg.isKey && cfg.readOnly ==> Write(rct, maxSize, db, c, resource, v) == (db, Err(-39))
    ensures !cfg.isKey ==>
      && Read(rct, db, c, resource) == (db, Ok([])) && Write(rct, maxSize, db, c, resource, v) == (db, Ok(0))
      && Delete(rct, db, c, resource) == (db, Ok(0))
  {
    var table :| table in rct && resource in rct[table] && rct[table][resource] == cfg && OfId(table, c.ldbid);
    OfIdIs(table, c.ldbid);
    if cfg.isKey && !cfg.readOnly {
      KeepsIf(rct, maxSize, db, c, resource, v, cfg);
      if db.slots == map[] {
        WrittenWhere(rct, maxSize, db, c, resource, v, cfg);
      }
      hide Write, Keeps, DbKey;
    }
  }

  /** Any other resource is refused: no data for the key with a table, no table without one. */
  lemma UnlistedRefused(rct: Rct, maxSize: int, db: Db, c: Context, resource: string, v: Value)
    requires c.ldbid != 0xFF && |v| <= maxSize && forall cfg :: !ListedAs(rct, c, resource, cfg)
    ensures var code := if HasTable(rct, c.ldbid) then -8 else -6;
      && Read(rct, db, c, resource) == (db, Err(code)) && Write(rct, maxSize, db, c, resource, v) == (db, Err(code))
      && Delete(rct, db, c, resource) == (db, Err(code))
  {
    var table := TableOf(c.ldbid);
    OfIdIs(table, c.ldbid);
    NotListed(rct, c, resource);
    forall t | t in rct && OfId(t, c.ldbid)
      ensures t == table
    {
      OfIdIs(t, c.ldbid);
    }
  }

  /** Values above the limit are refused before anything else. */
  lemma TooLong(rct: Rct, maxSize: int, db: Db, c: Context, resource: string, v: Value)
    ensures |v| > maxSize <==> Write(rct, maxSize, db, c, resource, v).1 == Err(-5)
  {
  }
}
