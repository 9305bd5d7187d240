/**
 Handles (src/persistence_client_library_handle.c) and the key operations that use them
 (src/persistence_client_library_key.c). Key handles and path handles are numbers from one pool: a
 counter of numbers ever issued and a stack of numbers given back.
 */
module Handles {
  import opened Options
  import opened DbKeys
  import opened KeyValues

  const MAX_PERS_HANDLE := 128
  const EPERS_MAXHANDLE := -4
  const EPERS_NOT_INITIALIZED := -32
  const EPERS_INVALID_HANDLE := -1000

  /** What is remembered for a key handle; a cleared record names no resource. */
  datatype KeyHandle = KeyHandle(resource: string, context: Context)

  const BLANK := KeyHandle("", Context(0, 0, 0))

  /** The numbers 1 to `next` - 1 have been issued; `free` is the stack of those given back. */
  datatype Pool = Pool(next: int, free: seq<int>, records: seq<KeyHandle>)

  /** The library: how often it was initialised, and its handles. */
  datatype Lib = Lib(inits: nat, pool: Pool)

  predicate InRange(h: int) {
    0 < h < MAX_PERS_HANDLE
  }

  predicate WellFormed(p: Pool) {
    |p.records| == MAX_PERS_HANDLE && 1 <= p.next < MAX_PERS_HANDLE && |p.free| <= MAX_PERS_HANDLE
  }

  // ---------- What the operations do ----------

  function Take(p: Pool): (Pool, int) {
    if |p.free| > 0 then (p.(free := p.free[..|p.free| - 1]), p.free[|p.free| - 1])
    else if p.next < MAX_PERS_HANDLE - 1 then (p.(next := p.next + 1), p.next)
    else (p, EPERS_MAXHANDLE)
  }

  function Give(p: Pool, h: int): Pool {
    if |p.free| < MAX_PERS_HANDLE then p.(free := p.free + [h]) else p
  }

  function Forget(p: Pool, h: int): Pool
    requires WellFormed(p) && InRange(h)
  {
    p.(records := p.records[h := BLANK])
  }

  function BlankRecords(): seq<KeyHandle> {
    seq(MAX_PERS_HANDLE, _ => BLANK)
  }

  datatype Event =
    | OpenKey(context: Context, resource: string)
    | CloseKey(handle: int)
    | OpenPath
    | ReleasePath(handle: int)
    | InitLibrary
    | DeinitLibrary

  predicate IsKey(rct: Rct, c: Context, resource: string) {
    ConfigOf(rct, c, resource).Ok? && ConfigOf(rct, c, resource).value.isKey
  }

  function Open(rct: Rct, p: Pool, c: Context, resource: string): (Pool, int)
    requires WellFormed(p)
  {
    if !IsKey(rct, c, resource) then (p, EPERS_NOT_INITIALIZED)
    else
      var (p1, h) := Take(p);
      if InRange(h) then (p1.(records := p1.records[h := KeyHandle(resource, c)]), h) else (p1, -1)
  }

  function Close(p: Pool, h: int): (Pool, int)
    requires WellFormed(p)
  {
    if !InRange(h) then (p, EPERS_MAXHANDLE)
    else if p.records[h].resource == "" then (p, EPERS_INVALID_HANDLE)
    else (Forget(Give(p, h), h), 1)
  }

  function Step(rct: Rct, l: Lib, e: Event): (r: (Lib, int))
    requires WellFormed(l.pool)
    ensures WellFormed(r.0.pool)
  {
    if e.InitLibrary? then
      (Lib(l.inits + 1, if l.inits == 0 then l.pool.(records := BlankRecords()) else l.pool), 1)
    else if l.inits == 0 then (l, EPERS_NOT_INITIALIZED)
    else match e
      case OpenKey(c, r) => var (p, h) := Open(rct, l.pool, c, r); (l.(pool := p), h)
      case CloseKey(h) => var (p, r) := Close(l.pool, h); (l.(pool := p), r)
      case OpenPath => var (p, h) := Take(l.pool); (l.(pool := p), h)
      case ReleasePath(h) => if InRange(h) then (l.(pool := Give(l.pool, h)), 1) else (l, EPERS_MAXHANDLE)
      case DeinitLibrary => (Lib(l.inits - 1, if l.inits == 1 then l.pool.(next := 1, free := []) else l.pool), 1)
  }

  // ---------- The code ----------

  class PersistenceHandles {
    const store: KeyStore
    var initialized: nat
    var handleIdx: int
    var freeHandleArray: array<int>
    var freeHandleIdxHead: nat
    var keyHandleArray: array<KeyHandle>

    ghost predicate Valid()
      reads this, keyHandleArray, freeHandleArray
    {
      && keyHandleArray.Length == MAX_PERS_HANDLE && freeHandleArray.Length == MAX_PERS_HANDLE
      && keyHandleArray as object != freeHandleArray as object
      && freeHandleIdxHead <= MAX_PERS_HANDLE && 1 <= handleIdx < MAX_PERS_HANDLE
    }

    ghost function View(): (l: Lib)
      reads this, keyHandleArray, freeHandleArray
      requires Valid()
      ensures WellFormed(l.pool)
    {
      Lib(initialized, Pool(handleIdx, freeHandleArray[..freeHandleIdxHead], keyHandleArray[..]))
    }

    constructor (store: KeyStore)
      ensures Valid() && View() == Lib(0, Pool(1, [], BlankRecords())) && this.store == store
      ensures fresh(keyHandleArray) && fresh(freeHandleArray)
    {
      this.store := store;
      initialized, handleIdx, freeHandleIdxHead := 0, 1, 0;
      freeHandleArray := new int[MAX_PERS_HANDLE](_ => 0);
      keyHandleArray := new KeyHandle[MAX_PERS_HANDLE](_ => BLANK);
    }

    method GetPersistenceHandleIdx() returns (handle: int)
      requires Valid()
      modifies this`handleIdx, this`freeHandleIdxHead
      ensures Valid() && initialized == old(initialized)
      ensures View().pool == Take(old(View().pool)).0 && handle == Take(old(View().pool)).1
    {
      if freeHandleIdxHead > 0 {
        freeHandleIdxHead := freeHandleIdxHead - 1;
        handle := freeHandleArray[freeHandleIdxHead];
      } else if handleIdx < MAX_PERS_HANDLE - 1 {
        handle := handleIdx;
        handleIdx := handleIdx + 1;
      } else {
        handle := EPERS_MAXHANDLE;
      }
    }

    method SetPersistenceHandleCloseIdx(handle: int)
      requires Valid()
      modifies this`freeHandleIdxHead, freeHandleArray
      ensures Valid() && View() == old(View()).(pool := Give(old(View().pool), handle))
    {
      if freeHandleIdxHead < MAX_PERS_HANDLE {
        freeHandleArray[freeHandleIdxHead] := handle;
        freeHandleIdxHead := freeHandleIdxHead + 1;
      }
    }

    method CloseAllPersistenceHandle()
      requires Valid()
      modifies this`handleIdx, this`freeHandleIdxHead, freeHandleArray
      ensures Valid() && View() == old(View()).(pool := old(View().pool).(next := 1, free := []))
    {
      forall i | 0 <= i < MAX_PERS_HANDLE {
        freeHandleArray[i] := 0;
      }
      handleIdx, freeHandleIdxHead := 1, 0;
    }

    method KeyHandleOpen(c: Context, resource: string) returns (handle: int)
      requires Valid()
      modifies this`handleIdx, this`freeHandleIdxHead, keyHandleArray
      ensures Valid() && (View(), handle) == Step(store.rct, old(View()), OpenKey(c, resource))
    {
      handle := EPERS_NOT_INITIALIZED;
      if initialized >= 1 {
        if IsKey(store.rct, c, resource) {
          var idx := GetPersistenceHandleIdx();
          handle := -1;
          if idx < MAX_PERS_HANDLE && 0 < idx {
            keyHandleArray[idx] := KeyHandle(resource, c);
            handle := idx;
          }
        }
      }
    }

    method KeyHandleClose(handle: int) returns (rval: int)
      requires Valid()
      modifies this`freeHandleIdxHead, freeHandleArray, keyHandleArray
      ensures Valid() && (View(), rval) == Step(store.rct, old(View()), CloseKey(handle))
    {
      rval := EPERS_NOT_INITIALIZED;
      if initialized >= 1 {
        rval := EPERS_MAXHANDLE;
        if handle < MAX_PERS_HANDLE && 0 < handle {
          rval := EPERS_INVALID_HANDLE;
          if keyHandleArray[handle].resource != "" {
            SetPersistenceHandleCloseIdx(handle);
            keyHandleArray[handle] := BLANK;
            rval := 1;
          }
        }
      }
    }

    /** Reading by handle is reading by the context the handle was opened with. */
    method KeyHandleReadData(handle: int) returns (r: Result<Value>)
      requires Valid()
      modifies store`db
      ensures Valid() && View() == old(View())
      ensures (store.db, r) ==
        if initialized == 0 then (old(store.db), Err(EPERS_NOT_INITIALIZED))
        else if !InRange(handle) then (old(store.db), Err(EPERS_MAXHANDLE))
        else
          var k := View().pool.records[handle];
          if k.resource == "" then (old(store.db), Err(EPERS_INVALID_HANDLE))
          else Read(store.rct, old(store.db), k.context, k.resource)
    {
      r := Err(EPERS_NOT_INITIALIZED);
      if initialized >= 1 {
        r := Err(EPERS_MAXHANDLE);
        if handle < MAX_PERS_HANDLE && handle > 0 {
          r := Err(EPERS_INVALID_HANDLE);
          var k := keyHandleArray[handle];
          if k.resource != "" {
            r := store.KeyReadData(k.context, k.resource);
          }
        }
      }
    }

    /** Writing by handle is writing by the context the handle was opened with. */
    method KeyHandleWriteData(handle: int, v: Value) returns (r: Result<nat>)
      requires Valid()
      modifies store`db
      ensures Valid() && View() == old(View())
      ensures (store.db, r) ==
        if initialized == 0 then (old(store.db), Err(EPERS_NOT_INITIALIZED))
        else if !InRange(handle) then (old(store.db), Err(EPERS_MAXHANDLE))
        else
          var k := View().pool.records[handle];
          if k.resource == "" then (old(store.db), Err(EPERS_INVALID_HANDLE))
          else Write(store.rct, store.maxSize, old(store.db), k.context, k.resource, v)
    {
      r := Err(EPERS_NOT_INITIALIZED);
      if initialized >= 1 {
        r := Err(EPERS_MAXHANDLE);
        if handle < MAX_PERS_HANDLE && handle > 0 {
          r := Err(EPERS_INVALID_HANDLE);
          var k := keyHandleArray[handle];
          if k.resource != "" {
            r := store.KeyWriteData(k.context, k.resource, v);
          }
        }
      }
    }

    /** The part of releasing a path that concerns the pool: only the range is checked. */
    method FileReleasePath(handle: int) returns (rval: int)
      requires Valid()
      modifies this`freeHandleIdxHead, freeHandleArray
      ensures Valid() && (View(), rval) == Step(store.rct, old(View()), ReleasePath(handle))
    {
      rval := EPERS_NOT_INITIALIZED;
      if initialized >= 1 {
        rval := EPERS_MAXHANDLE;
        if handle < MAX_PERS_HANDLE && handle > 0 {
          SetPersistenceHandleCloseIdx(handle);
          rval := 1;
        }
      }
    }

    method InitLibraryHandles()
      requires Valid()
      modifies this`initialized, keyHandleArray
      ensures Valid() && View() == Step(store.rct, old(View()), InitLibrary).0
    {
      if initialized == 0 {
        forall i | 0 <= i < MAX_PERS_HANDLE {
          keyHandleArray[i] := BLANK;
        }
      }
      initialized := initialized + 1;
    }

    /** The last call closes all databases and takes all handles back. */
    method DeinitLibraryHandles() returns (rval: int)
      requires Valid()
      modifies this`initialized, this`handleIdx, this`freeHandleIdxHead, freeHandleArray, store`db
      ensures Valid() && (View(), rval) == Step(store.rct, old(View()), DeinitLibrary)
      ensures store.db == if old(initialized) == 1 then CloseAll(old(store.db)) else old(store.db)
    {
      rval := 1;
      if initialized == 1 {
        store.DatabaseCloseAll();
        CloseAllPersistenceHandle();
        initialized := 0;
      } else if initialized > 1 {
        initialized := initialized - 1;
      } else {
        rval := EPERS_NOT_INITIALIZED;
      }
    }
  }

  // ---------- Starts and keys ----------

  /** Starts less stops, which below the first start count for nothing. */
  function Level(es: seq<Event>): nat {
    if es == [] then 0
    else
      var before := Level(es[..|es| - 1]);
      match es[|es| - 1]
      case InitLibrary => before + 1
      case DeinitLibrary => if before > 0 then before - 1 else 0
      case _ => before
  }

  /** A nested start is undone by one stop, and changes nothing else. */
  lemma NestedStart(rct: Rct, l: Lib)
    requires WellFormed(l.pool) && l.inits > 0
    ensures var up := Step(rct, l, InitLibrary).0;
      up.pool == l.pool && Step(rct, up, DeinitLibrary) == (l, 1)
  {
  }

  /** What opening a key handle asks of the configuration tables. */
  lemma KeyIff(rct: Rct, c: Context, resource: string)
    ensures IsKey(rct, c, resource) <==>
      || (exists cfg :: ListedAs(rct, c, resource, cfg) && cfg.isKey)
      || (c.ldbid == 0xFF && forall cfg :: !ListedAs(rct, c, resource, cfg))
  {
    ListedIff(rct, c, resource);
    hide ListedAs;
    var table := TableOf(c.ldbid);
    assert table in rct && resource in rct[table] ==> ListedAs(rct, c, resource, rct[table][resource]);
  }

  // ---------- Who holds which handle ----------

  datatype Owner = KeyOwner(handle: KeyHandle) | PathOwner

  type Owners = map<int, Owner>

  /** Owners as clients see them: by what they asked for and what was returned. */
  function OwnersAfter(l: Lib, owners: Owners, e: Event, returned: int): Owners {
    match e
    case OpenKey(c, r) => if returned > 0 then owners[returned := KeyOwner(KeyHandle(r, c))] else owners
    case OpenPath => if returned > 0 then owners[returned := PathOwner] else owners
    case CloseKey(h) => if returned == 1 then owners - {h} else owners
    case ReleasePath(h) => if returned == 1 then owners - {h} else owners
    case InitLibrary => owners
    case DeinitLibrary => if l.inits == 1 then map[] else owners
  }

  function Issued(n: nat): set<int> {
    if n == 0 then {} else Issued(n - 1) + {n}
  }

  function Elems(s: seq<int>): set<int> {
    set h | h in s
  }

  predicate Distinct(s: seq<int>) {
    forall i, j | 0 <= i < j < |s| :: s[i] != s[j]
  }

  ghost predicate RecordsRight(records: seq<KeyHandle>, owners: Owners) {
    && |records| == MAX_PERS_HANDLE
    && forall h: int | InRange(h) ::
         records[h] == if h in owners && owners[h].KeyOwner? then owners[h].handle else BLANK
  }

  /** Of the numbers 1 to `n` every one is either held or exactly once on the stack. */
  predicate Accounts(free: seq<int>, held: set<int>, n: nat) {
    Distinct(free) && Elems(free) !! held && Elems(free) + held == Issued(n)
  }

  ghost predicate PoolInv(p: Pool, owners: Owners) {
    1 <= p.next < MAX_PERS_HANDLE && Accounts(p.free, owners.Keys, p.next - 1) && RecordsRight(p.records, owners)
  }

  ghost predicate Inv(l: Lib, owners: Owners) {
    if l.inits == 0 then |l.pool.records| == MAX_PERS_HANDLE && l.pool.next == 1 && l.pool.free == [] && owners == map[]
    else PoolInv(l.pool, owners)
  }

  /** A number released as a path is held, and no key is recorded under it. */
  ghost predicate Disciplined(l: Lib, owners: Owners, e: Event) {
    e.ReleasePath? && l.inits > 0 && InRange(e.handle) ==>
      e.handle in owners && |l.pool.records| == MAX_PERS_HANDLE && l.pool.records[e.handle] == BLANK
  }

  lemma {:induction false} InIssued(n: nat, h: int)
    ensures h in Issued(n) <==> 1 <= h <= n
  {
    if n > 0 {
      InIssued(n - 1, h);
    }
  }

  lemma {:induction false} IssuedCount(n: nat)
    ensures |Issued(n)| == n
  {
    if n > 0 {
      IssuedCount(n - 1);
      InIssued(n - 1, n);
    }
  }

  lemma ElemsSnoc(s: seq<int>, h: int)
    ensures Elems(s + [h]) == Elems(s) + {h}
    ensures Distinct(s + [h]) <==> Distinct(s) && h !in Elems(s)
  {
    assert (s + [h])[|s|] == h;
    assert forall i | 0 <= i < |s| :: (s + [h])[i] == s[i];
  }

  lemma {:induction false} DistinctCount(s: seq<int>)
    requires Distinct(s)
    ensures |Elems(s)| == |s|
    decreases |s|
  {
    if s != [] {
      var init := s[..|s| - 1];
      assert s == init + [s[|s| - 1]];
      ElemsSnoc(init, s[|s| - 1]);
      DistinctCount(init);
    }
  }

  lemma PushAccounts(free: seq<int>, held: set<int>, n: nat, h: int)
    requires Accounts(free, held, n) && h in held
    ensures Accounts(free + [h], held - {h}, n) && 1 <= h <= n
  {
    ElemsSnoc(free, h);
    InIssued(n, h);
    hide Elems, Distinct, Issued;
    assert h in Issued(n);
  }

  lemma PopAccounts(free: seq<int>, held: set<int>, n: nat)
    requires Accounts(free, held, n) && |free| > 0
    ensures var h := free[|free| - 1];
      h !in held && 1 <= h <= n && Accounts(free[..|free| - 1], held + {h}, n)
  {
    var init, h := free[..|free| - 1], free[|free| - 1];
    assert free == init + [h];
    ElemsSnoc(init, h);
    InIssued(n, h);
    hide Elems, Distinct, Issued;
    assert h in Issued(n);
  }

  lemma NextAccounts(held: set<int>, n: nat)
    requires Accounts([], held, n)
    ensures n + 1 !in held && Accounts([], held + {n + 1}, n + 1)
  {
    InIssued(n, n + 1);
  }

  lemma CountAccounts(free: seq<int>, held: set<int>, n: nat)
    requires Accounts(free, held, n)
    ensures |held| + |free| == n
  {
    IssuedCount(n);
    DistinctCount(free);
    hide Issued, Elems, Distinct;
    assert |Elems(free) + held| == |Elems(free)| + |held|;
  }

  /** Held and free handles together are the issued ones, so the stack never overflows. */
  lemma CountHandles(p: Pool, owners: Owners)
    requires PoolInv(p, owners)
    ensures |owners.Keys| + |p.free| == p.next - 1 && |p.free| < MAX_PERS_HANDLE - 1
  {
    CountAccounts(p.free, owners.Keys, p.next - 1);
    hide Accounts, RecordsRight;
  }

  /** Only the owners of keys matter for the records. */
  lemma TakeRecords(records: seq<KeyHandle>, owners: Owners, h: int)
    requires RecordsRight(records, owners) && h !in owners
    ensures RecordsRight(records, owners[h := PathOwner]) && owners[h := PathOwner].Keys == owners.Keys + {h}
  {
  }

  lemma TakeFree(p: Pool, owners: Owners)
    requires PoolInv(p, owners) && |p.free| > 0
    ensures var (p1, h) := Take(p);
      && 1 <= h < MAX_PERS_HANDLE - 1 && h !in owners && p1.records == p.records
      && PoolInv(p1, owners[h := PathOwner])
  {
    hide Accounts, RecordsRight;
    PopAccounts(p.free, owners.Keys, p.next - 1);
    TakeRecords(p.records, owners, p.free[|p.free| - 1]);
  }

  lemma TakeNext(p: Pool, owners: Owners)
    requires PoolInv(p, owners) && p.free == [] && p.next < MAX_PERS_HANDLE - 1
    ensures var (p1, h) := Take(p);
      && 1 <= h < MAX_PERS_HANDLE - 1 && h !in owners && p1.records == p.records
      && PoolInv(p1, owners[h := PathOwner])
  {
    hide Accounts, RecordsRight;
    NextAccounts(owners.Keys, p.next - 1);
    TakeRecords(p.records, owners, p.next);
  }

  /** A number is refused exactly if 126 are held, and else is held by nobody. */
  lemma TakeKeeps(p: Pool, owners: Owners)
    requires PoolInv(p, owners)
    ensures |owners.Keys| <= MAX_PERS_HANDLE - 2
    ensures var (p1, h) := Take(p);
      if |owners.Keys| == MAX_PERS_HANDLE - 2 then h == EPERS_MAXHANDLE && p1 == p
      else
        && 1 <= h < MAX_PERS_HANDLE - 1 && h !in owners && p1.records == p.records
        && PoolInv(p1, owners[h := PathOwner])
  {
    CountHandles(p, owners);
    assert 1 <= p.next < MAX_PERS_HANDLE;
    hide PoolInv;
    if |p.free| > 0 {
      TakeFree(p, owners);
    } else if p.next < MAX_PERS_HANDLE - 1 {
      TakeNext(p, owners);
    }
  }

  /** The owner may write the record of the handle. */
  lemma RecordKeeps(p: Pool, owners: Owners, h: int, k: KeyHandle)
    requires PoolInv(p, owners[h := PathOwner]) && InRange(h)
    ensures PoolInv(p.(records := p.records[h := k]), owners[h := KeyOwner(k)])
  {
    hide Accounts;
    assert owners[h := PathOwner].Keys == owners[h := KeyOwner(k)].Keys;
  }

  /** What is recorded under a number tells a key handle from a path handle and from a free one. */
  lemma RecordTells(p: Pool, owners: Owners, h: int)
    requires PoolInv(p, owners)
    ensures h in owners ==> 1 <= h < p.next && InRange(h)
    ensures InRange(h) ==>
      && p.records[h] == (if h in owners && owners[h].KeyOwner? then owners[h].handle else BLANK)
      && (p.records[h].resource != "" ==> h in owners && owners[h].KeyOwner?)
  {
    if h in owners {
      PushAccounts(p.free, owners.Keys, p.next - 1, h);
    }
  }

  lemma GiveRecords(p: Pool, owners: Owners, h: int)
    requires RecordsRight(p.records, owners) && InRange(h)
    ensures RecordsRight(p.records[h := BLANK], owners - {h})
  {
  }

  lemma GiveKeeps(p: Pool, owners: Owners, h: int)
    requires PoolInv(p, owners) && h in owners
    ensures InRange(h) && |p.records| == MAX_PERS_HANDLE && Give(p, h) == p.(free := p.free + [h])
    ensures PoolInv(p.(free := p.free + [h], records := p.records[h := BLANK]), owners - {h})
  {
    RecordTells(p, owners, h);
    GiveRecords(p, owners, h);
    assert Give(p, h) == p.(free := p.free + [h]) by {
      CountHandles(p, owners);
    }
    PushAccounts(p.free, owners.Keys, p.next - 1, h);
    hide Accounts, RecordsRight;
    assert (owners - {h}).Keys == owners.Keys - {h};
  }

  /** Returned is what the owners account for. */
  ghost predicate RightReturn(rct: Rct, l: Lib, owners: Owners, e: Event, returned: int) {
    if e.InitLibrary? then returned == 1
    else if l.inits == 0 then returned == EPERS_NOT_INITIALIZED
    else match e
      case OpenKey(c, r) =>
        if !IsKey(rct, c, r) then returned == EPERS_NOT_INITIALIZED
        else if |owners.Keys| == 126 then returned == -1
        else 1 <= returned <= 126 && returned !in owners
      case OpenPath =>
        if |owners.Keys| == 126 then returned == EPERS_MAXHANDLE
        else 1 <= returned <= 126 && returned !in owners
      case CloseKey(h) =>
        returned ==
          if h in owners && owners[h].KeyOwner? && owners[h].handle.resource != "" then 1
          else if InRange(h) then EPERS_INVALID_HANDLE
          else EPERS_MAXHANDLE
      case ReleasePath(h) => returned == if h in owners then 1 else EPERS_MAXHANDLE
      case DeinitLibrary => returned == 1
  }

  /**
   Every operation returns what its clients' holdings call for and keeps issued handles either held
   or free. Handles of keys may be closed with any number, also ones never issued.
   */
  lemma StepKeeps(rct: Rct, l: Lib, owners: Owners, e: Event)
    requires Inv(l, owners) && WellFormed(l.pool) && Disciplined(l, owners, e)
    ensures var (l1, returned) := Step(rct, l, e);
      && RightReturn(rct, l, owners, e, returned)
      && Inv(l1, OwnersAfter(l, owners, e, returned))
  {
    hide PoolInv, Take, Give;
    if l.inits == 0 {
      StartAccounts(BlankRecords());
    } else {
      match e
      case OpenKey(c, r) => OpenKeeps(rct, l.pool, owners, c, r);
      case OpenPath => TakeKeeps(l.pool, owners);
      case CloseKey(h) =>
        RecordTells(l.pool, owners, h);
        if InRange(h) && l.pool.records[h].resource != "" {
          GiveKeeps(l.pool, owners, h);
        }
      case ReleasePath(h) => ReleaseKeeps(l.pool, owners, h);
      case InitLibrary =>
      case DeinitLibrary =>
    }
  }

  lemma StartAccounts(records: seq<KeyHandle>)
    requires records == BlankRecords()
    ensures PoolInv(Pool(1, [], records), map[])
  {
  }

  lemma OpenKeeps(rct: Rct, p: Pool, owners: Owners, c: Context, r: string)
    requires PoolInv(p, owners) && WellFormed(p)
    ensures var (p1, h) := Open(rct, p, c, r);
      && (if !IsKey(rct, c, r) then h == EPERS_NOT_INITIALIZED
          else if |owners.Keys| == MAX_PERS_HANDLE - 2 then h == -1
          else 1 <= h < MAX_PERS_HANDLE - 1 && h !in owners)
      && PoolInv(p1, if h > 0 then owners[h := KeyOwner(KeyHandle(r, c))] else owners)
  {
    TakeKeeps(p, owners);
    hide PoolInv, Take, IsKey;
    var (p1, h) := Take(p);
    if IsKey(rct, c, r) && InRange(h) {
      RecordKeeps(p1, owners, h, KeyHandle(r, c));
    }
  }

  lemma ReleaseKeeps(p: Pool, owners: Owners, h: int)
    requires PoolInv(p, owners)
    requires InRange(h) ==> h in owners && |p.records| == MAX_PERS_HANDLE && p.records[h] == BLANK
    ensures InRange(h) <==> h in owners
    ensures InRange(h) ==> PoolInv(Give(p, h), owners - {h})
  {
    RecordTells(p, owners, h);
    if InRange(h) {
      GiveKeeps(p, owners, h);
      var p1 := Give(p, h);
      assert p1.records[h := BLANK] == p1.records;
    }
  }

  /** The discipline is what it takes: any other call leaves numbers that are not held once or free once. */
  lemma DisciplinedIff(rct: Rct, l: Lib, owners: Owners, e: Event)
    requires Inv(l, owners) && WellFormed(l.pool)
    ensures Disciplined(l, owners, e) <==> exists owners' :: Inv(Step(rct, l, e).0, owners')
  {
    hide PoolInv;
    if Disciplined(l, owners, e) {
      StepKeeps(rct, l, owners, e);
    } else {
      ReleaseIff(l.pool, owners, e.handle);
    }
  }

  // ---------- All runs ----------

  function RunLib(rct: Rct, l: Lib, es: seq<Event>): (r: Lib)
    requires WellFormed(l.pool)
    ensures WellFormed(r.pool)
  {
    if es == [] then l else Step(rct, RunLib(rct, l, es[..|es| - 1]), es[|es| - 1]).0
  }

  ghost function RunOwners(rct: Rct, l: Lib, es: seq<Event>): Owners
    requires WellFormed(l.pool)
  {
    if es == [] then map[]
    else
      var before, e := es[..|es| - 1], es[|es| - 1];
      OwnersAfter(RunLib(rct, l, before), RunOwners(rct, l, before), e, Step(rct, RunLib(rct, l, before), e).1)
  }

  ghost predicate DisciplinedRun(rct: Rct, l: Lib, es: seq<Event>)
    requires WellFormed(l.pool)
  {
    es != [] ==>
      var before, e := es[..|es| - 1], es[|es| - 1];
      DisciplinedRun(rct, l, before) && Disciplined(RunLib(rct, l, before), RunOwners(rct, l, before), e)
  }

  /** In every run the library is up as long as it was started more often than stopped. */
  lemma {:induction false} StartsCounted(rct: Rct, es: seq<Event>)
    ensures RunLib(rct, START, es).inits == Level(es)
    ensures forall e: Event | !e.InitLibrary? ::
              Step(rct, RunLib(rct, START, es), e).1 == EPERS_NOT_INITIALIZED || Level(es) > 0
    decreases |es|
  {
    if es != [] {
      StartsCounted(rct, es[..|es| - 1]);
    }
  }

  const START := Lib(0, Pool(1, [], BlankRecords()))

  /** In every run handles are held once or free once, and the next operation returns rightly. */
  lemma {:induction false} RunKeeps(rct: Rct, es: seq<Event>)
    requires DisciplinedRun(rct, START, es)
    ensures Inv(RunLib(rct, START, es), RunOwners(rct, START, es))
    ensures forall e | Disciplined(RunLib(rct, START, es), RunOwners(rct, START, es), e) ::
              RightReturn(rct, RunLib(rct, START, es), RunOwners(rct, START, es), e, Step(rct, RunLib(rct, START, es), e).1)
    decreases |es|
  {
    var l, owners := RunLib(rct, START, es), RunOwners(rct, START, es);
    if es != [] {
      var before := es[..|es| - 1];
      RunKeeps(rct, before);
      StepKeeps(rct, RunLib(rct, START, before), RunOwners(rct, START, before), es[|es| - 1]);
    }
    forall e | Disciplined(l, owners, e)
      ensures RightReturn(rct, l, owners, e, Step(rct, l, e).1)
    {
      StepKeeps(rct, l, owners, e);
    }
  }

  predicate Ends(e: Event, h: int) {
    e == CloseKey(h) || e == ReleasePath(h) || e == DeinitLibrary
  }

  lemma OwnerStays(rct: Rct, l: Lib, owners: Owners, e: Event, h: int)
    requires Inv(l, owners) && WellFormed(l.pool) && Disciplined(l, owners, e) && h in owners && !Ends(e, h)
    ensures var after := OwnersAfter(l, owners, e, Step(rct, l, e).1);
      h in after && after[h] == owners[h]
  {
    StepKeeps(rct, l, owners, e);
    hide Step, PoolInv;
  }

  lemma HeldRecord(l: Lib, owners: Owners, h: int)
    requires Inv(l, owners) && h in owners && owners[h].KeyOwner?
    ensures l.inits > 0 && InRange(h) && |l.pool.records| == MAX_PERS_HANDLE && l.pool.records[h] == owners[h].handle
  {
    RecordTells(l.pool, owners, h);
  }

  /** A key handle names what it was opened for until it is closed or the library goes down. */
  lemma {:induction false} HandleKept(rct: Rct, es: seq<Event>, more: seq<Event>, h: int)
    requires DisciplinedRun(rct, START, es + more)
    ensures var before, after := RunOwners(rct, START, es), RunOwners(rct, START, es + more);
      h in before && before[h].KeyOwner? && (forall e | e in more :: !Ends(e, h)) ==>
        && h in after && after[h] == before[h] && InRange(h)
        && RunLib(rct, START, es + more).inits > 0
        && RunLib(rct, START, es + more).pool.records[h] == before[h].handle
    decreases |more|
  {
    hide Step, Inv, OwnersAfter, Disciplined, Ends;
    var all, owners := es + more, RunOwners(rct, START, es);
    if h in owners && owners[h].KeyOwner? && forall e | e in more :: !Ends(e, h) {
      RunKeeps(rct, all);
      if more == [] {
        assert all == es;
      } else {
        var front := more[..|more| - 1];
        assert all[..|all| - 1] == es + front && all[|all| - 1] == more[|more| - 1];
        HandleKept(rct, es, front, h);
        RunKeeps(rct, es + front);
        OwnerStays(rct, RunLib(rct, START, es + front), RunOwners(rct, START, es + front), more[|more| - 1], h);
      }
      HeldRecord(RunLib(rct, START, all), RunOwners(rct, START, all), h);
    }
  }

  /** The handle closed last is the one opened next. */
  lemma LastInFirstOut(rct: Rct, l: Lib, owners: Owners, h: int, c: Context, r: string)
    requires Inv(l, owners) && WellFormed(l.pool) && l.inits > 0 && IsKey(rct, c, r)
    requires h in owners && owners[h].KeyOwner? && owners[h].handle.resource != ""
    ensures var (l1, h1) := Step(rct, Step(rct, l, CloseKey(h)).0, OpenKey(c, r));
      h1 == h && InRange(h) && l1 == l.(pool := l.pool.(records := l.pool.records[h := KeyHandle(r, c)]))
  {
    var p := l.pool;
    RecordTells(p, owners, h);
    GiveKeeps(p, owners, h);
    hide PoolInv, IsKey;
    assert (p.free + [h])[..|p.free|] == p.free;
    assert Close(p, h) == (p.(free := p.free + [h], records := p.records[h := BLANK]), 1);
    assert p.records[h := BLANK][h := KeyHandle(r, c)] == p.records[h := KeyHandle(r, c)];
  }

  /**
   Releasing a number in range as a path keeps handles apart exactly if it is held and no key is
   recorded under it.
   */
  lemma ReleaseIff(p: Pool, owners: Owners, h: int)
    requires PoolInv(p, owners) && InRange(h)
    ensures (exists owners' :: PoolInv(Give(p, h), owners')) <==> h in owners && p.records[h] == BLANK
  {
    assert Give(p, h) == p.(free := p.free + [h]) by {
      CountHandles(p, owners);
    }
    RecordTells(p, owners, h);
    if h in owners && p.records[h] == BLANK {
      GiveKeeps(p, owners, h);
      assert p.records[h := BLANK] == p.records;
      assert PoolInv(p.(free := p.free + [h]), owners - {h});
    }
    forall owners' | PoolInv(Give(p, h), owners')
      ensures h in owners && p.records[h] == BLANK
    {
      Pushed(p.free, owners.Keys, owners'.Keys, p.next - 1, h);
      RecordTells(Give(p, h), owners', h);
    }
    hide PoolInv;
  }

  lemma Pushed(free: seq<int>, held: set<int>, held': set<int>, n: nat, h: int)
    requires Accounts(free, held, n) && Accounts(free + [h], held', n)
    ensures h in held && h !in held'
  {
    ElemsSnoc(free, h);
    hide Elems, Distinct, Issued;
    assert h in Elems(free + [h]);
    assert h in Issued(n);
  }

  /** Releasing a path twice hands the same number to two clients. */
  lemma DoubleRelease(rct: Rct, c1: Context, r1: string, c2: Context, r2: string)
    requires IsKey(rct, c1, r1) && IsKey(rct, c2, r2)
    ensures var l := RunLib(rct, START, [InitLibrary, OpenPath, ReleasePath(1), ReleasePath(1)]);
      var (l1, h1) := Step(rct, l, OpenKey(c1, r1));
      h1 == 1 && Step(rct, l1, OpenKey(c2, r2)).1 == 1
  {
    var es := [InitLibrary, OpenPath, ReleasePath(1), ReleasePath(1)];
    assert es[..3][..2] == es[..2] && es[..2][..1] == es[..1] && es[..1][..0] == [];
    hide IsKey, BlankRecords;
    assert RunLib(rct, START, []) == START;
    assert RunLib(rct, START, es[..1]).inits == 1 && RunLib(rct, START, es[..1]).pool.free == [];
    assert RunLib(rct, START, es[..2]).pool.free == [] && RunLib(rct, START, es[..2]).inits == 1;
    assert RunLib(rct, START, es[..3]).pool.free == [1] && RunLib(rct, START, es[..3]).inits == 1;
    assert RunLib(rct, START, es).pool.free == [1, 1] && RunLib(rct, START, es).inits == 1;
  }
}
