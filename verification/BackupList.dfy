/**
 The list of resources that are exempt from backups (src/persistence_client_library_backup_filelist.c):
 the list file is cut into entries in place, the checksum of each entry goes into the red-black
 tree, and a resource is exempt when its checksum is found there.
 */
module BackupList {
  import opened ByteValues
  import opened CStrings
  import opened Options
  import opened RbTree
  import RbHeap
  import Crc32

  const TOKENARRAYSIZE: nat := 255
  const PATH_SIZE: nat := 128
  const DONT_CREATE_BACKUP := 0
  const CREATE_BACKUP := 1

  /** The character table, 32 characters to a row. */
  function CharLookup(c: CChar): int
    requires c < 127
  {
    var i := c as int;
    if i < 0x20 then
      [0, 0, 0, 0, 0, 0, 0, 0, 0, 0, 0, 0, 0, 0, 0, 0, 0, 0, 0, 0, 0, 0, 0, 0, 0, 0, 0, 0, 0, 0, 0, 0][i]
    else if i < 0x40 then
      [0, 1, 1, 1, 1, 1, 1, 1, 1, 1, 1, 1, 1, 1, 1, 1, 1, 1, 1, 1, 1, 1, 1, 1, 1, 1, 1, 1, 1, 1, 1, 1][i - 0x20]
    else if i < 0x60 then
      [1, 1, 1, 1, 1, 1, 1, 1, 1, 1, 1, 1, 1, 1, 1, 1, 1, 1, 1, 1, 1, 1, 1, 1, 1, 1, 1, 1, 1, 1, 1, 1][i - 0x40]
    else
      [1, 1, 1, 1, 1, 1, 1, 1, 1, 1, 1, 1, 1, 1, 1, 1, 1, 1, 1, 1, 1, 1, 1, 1, 1, 1, 1, 1, 1, 1, 1][i - 0x60]
  }

  /** Entries end at control characters and blanks, and at nothing else. */
  lemma DelimiterIff(c: CChar)
    ensures IsDelimiter(c) <==> c <= 0x20
  {
  }

  predicate IsDelimiter(c: CChar) {
    c < 127 && CharLookup(c) != 1
  }

  // ---------- The checksum of a path ----------

  /** The checksum of a path, by which it is listed. */
  function PathKey(path: CString): Key {
    Crc32.Crc(Crc32.Reg(0), Bytes(path)).bits as int
  }

  ghost predicate SameChecksum(a: CString, b: CString) {
    exists x, y :: IsBytes(a, x) && IsBytes(b, y) && Crc32.Crc(Crc32.Reg(0), x) == Crc32.Crc(Crc32.Reg(0), y)
  }

  lemma SameBits(x: Crc32.Reg, y: Crc32.Reg)
    ensures x.bits as int == y.bits as int <==> x == y
  {
    assert (x.bits as int) as bv32 == x.bits && (y.bits as int) as bv32 == y.bits;
  }

  /** Two paths have one key exactly if the checksums of their bytes are the same. */
  lemma KeyIsChecksum(a: CString, b: CString)
    ensures PathKey(a) == PathKey(b) <==> SameChecksum(a, b)
  {
    hide Crc32.Crc, IsBytes, Bytes;
    BytesIff(a, Bytes(a));
    BytesIff(b, Bytes(b));
    SameBits(Crc32.Crc(Crc32.Reg(0), Bytes(a)), Crc32.Crc(Crc32.Reg(0), Bytes(b)));
    forall x, y | IsBytes(a, x) && IsBytes(b, y)
      ensures x == Bytes(a) && y == Bytes(b)
    {
      BytesIff(a, x);
      BytesIff(b, y);
    }
  }

  method PathChecksum(path: CString) returns (key: Key)
    ensures key == PathKey(path)
  {
    var bytes := Bytes(path);
    var buf := new bv8[|path|](i requires 0 <= i < |path| => path[i] as bv8);
    assert buf[..] == bytes;
    assert buf[..|path|] == buf[..];
    var crc := Crc32.PclCrc32(Crc32.Reg(0), buf, |path|);
    key := crc.bits as int;
  }

  // ---------- What a list says ----------

  /** `entry` stands in the list: it is free of delimiters, ended by one, and starts the list or follows one. */
  ghost predicate ListedAt(list: CString, i: nat, j: nat, entry: CString) {
    && i <= j < |list| && entry == list[i..j]
    && IsDelimiter(list[j]) && (i == 0 || IsDelimiter(list[i - 1]))
    && forall k | i <= k < j :: !IsDelimiter(list[k])
  }

  ghost predicate Listed(list: CString, entry: CString) {
    exists i: nat, j: nat :: ListedAt(list, i, j, entry)
  }

  /** A path is exempt when a list is loaded and has an entry with the same CRC of its bytes. */
  ghost predicate Exempt(source: Option<CString>, path: CString) {
    source.Some? && exists entry :: Listed(source.value, entry) && SameChecksum(Truncated(entry), path)
  }

  /** Paths are copied into a buffer of 128 characters. */
  function Truncated(entry: CString): (path: CString)
    ensures path <= entry && |path| == if |entry| > 127 then 127 else |entry|
  {
    if |entry| < PATH_SIZE then entry else entry[..PATH_SIZE - 1]
  }

  // ---------- The delimiters of a list ----------

  function Delimiters(list: CString): seq<nat> {
    if list == [] then []
    else
      var n := |list| - 1;
      Delimiters(list[..n]) + if IsDelimiter(list[n]) then [n] else []
  }

  /** The positions of delimiters are given in ascending order. */
  ghost predicate Ascending(ds: seq<nat>, list: CString) {
    && (forall k | 0 <= k < |ds| :: ds[k] < |list| && IsDelimiter(list[ds[k]]))
    && (forall k, l | 0 <= k < l < |ds| :: ds[k] < ds[l])
  }

  lemma {:induction false} DelimitersAscend(list: CString)
    ensures Ascending(Delimiters(list), list)
    decreases |list|
  {
    if list != [] {
      var n := |list| - 1;
      var init := list[..n];
      DelimitersAscend(init);
      var ds, all := Delimiters(init), Delimiters(list);
      assert all == ds + if IsDelimiter(list[n]) then [n] else [];
      forall k | 0 <= k < |all|
        ensures all[k] < |list| && IsDelimiter(list[all[k]])
      {
        if k < |ds| {
          assert all[k] == ds[k] && init[ds[k]] == list[ds[k]];
        }
      }
    }
  }

  lemma {:induction false} AllDelimiters(list: CString, i: nat)
    requires i < |list| && IsDelimiter(list[i])
    ensures i in Delimiters(list)
    decreases |list|
  {
    var n := |list| - 1;
    if i < n {
      AllDelimiters(list[..n], i);
    }
  }

  lemma {:induction false} DelimitersPrefix(list: CString, n: nat)
    requires n <= |list|
    ensures Delimiters(list[..n]) <= Delimiters(list)
    decreases |list|
  {
    if n == |list| {
      assert list[..n] == list;
    } else {
      var l := list[..|list| - 1];
      DelimitersPrefix(l, n);
      assert l[..n] == list[..n];
    }
  }

  lemma DelimitersStep(list: CString, i: nat)
    requires i < |list|
    ensures Delimiters(list[..i + 1]) == Delimiters(list[..i]) + if IsDelimiter(list[i]) then [i] else []
    ensures |Delimiters(list[..i + 1])| <= |Delimiters(list)|
  {
    DelimitersPrefix(list, i + 1);
    assert list[..i + 1][..i] == list[..i];
  }

  function Start(list: CString, k: nat): nat
    requires k <= |Delimiters(list)|
  {
    if k == 0 then 0 else Delimiters(list)[k - 1] + 1
  }

  function Entry(list: CString, k: nat): CString
    requires k < |Delimiters(list)|
  {
    EntryBounds(list, k);
    list[Start(list, k)..Delimiters(list)[k]]
  }

  lemma EntryBounds(list: CString, k: nat)
    requires k < |Delimiters(list)|
    ensures Start(list, k) <= Delimiters(list)[k] < |list|
    ensures ListedAt(list, Start(list, k), Delimiters(list)[k], list[Start(list, k)..Delimiters(list)[k]])
  {
    DelimitersAscend(list);
    var ds := Delimiters(list);
    forall i | Start(list, k) <= i < ds[k]
      ensures !IsDelimiter(list[i])
    {
      forall l | 0 <= l < |ds|
        ensures ds[l] != i
      {
        assert if l < k then ds[l] <= ds[k - 1] else ds[k] <= ds[l];
      }
      if IsDelimiter(list[i]) {
        AllDelimiters(list, i);
      }
    }
  }

  lemma ListedIsEntry(list: CString, i: nat, j: nat, entry: CString) returns (k: nat)
    requires ListedAt(list, i, j, entry)
    ensures k < |Delimiters(list)| && Entry(list, k) == entry
  {
    DelimitersAscend(list);
    AllDelimiters(list, j);
    var ds := Delimiters(list);
    hide Delimiters;
    k :| 0 <= k < |ds| && ds[k] == j;
    EntryBounds(list, k);
    if i > 0 {
      AllDelimiters(list, i - 1);
    }
    assert Start(list, k) == i;
  }

  /** The entries by number are the listed ones. */
  lemma EntriesAreListed(list: CString, entry: CString)
    ensures Listed(list, entry) <==> exists k: nat :: k < |Delimiters(list)| && Entry(list, k) == entry
  {
    hide Delimiters, ListedAt;
    if Listed(list, entry) {
      var i: nat, j: nat :| ListedAt(list, i, j, entry);
      var k := ListedIsEntry(list, i, j, entry);
      assert Entry(list, k) == entry;
    }
    forall k: nat | k < |Delimiters(list)|
      ensures Listed(list, Entry(list, k))
    {
      EntryBounds(list, k);
    }
  }

  // ---------- Cutting the list in place ----------

  /** Every delimiter replaced by the end of a string. */
  function Cut(list: CString): CString {
    seq(|list|, i requires 0 <= i < |list| => CutChar(list[i]))
  }

  function CutChar(c: CChar): CChar {
    if IsDelimiter(c) then 0 else c
  }

  /** The characters from position `p` up to the end of the string. */
  function StringAt(buf: CString, p: nat): CString
    requires p <= |buf|
    decreases |buf| - p
  {
    if p == |buf| || buf[p] == 0 then [] else [buf[p]] + StringAt(buf, p + 1)
  }

  lemma {:induction false} StringIs(list: CString, p: nat, j: nat)
    requires p <= j < |list| && IsDelimiter(list[j]) && forall k | p <= k < j :: !IsDelimiter(list[k])
    ensures StringAt(Cut(list), p) == list[p..j]
    decreases j - p
  {
    if p < j {
      StringIs(list, p + 1, j);
      assert IsDelimiter(0);
      assert list[p..j] == [list[p]] + list[p + 1..j];
    }
  }

  /** What is read at the start of entry `k` of the cut list is that entry. */
  lemma EntryString(list: CString, k: nat)
    requires k < |Delimiters(list)|
    ensures Start(list, k) <= |list| && StringAt(Cut(list), Start(list, k)) == Entry(list, k)
  {
    EntryBounds(list, k);
    StringIs(list, Start(list, k), Delimiters(list)[k]);
  }

  /** The token array after `n` characters: the starts of the entries found, then null pointers. */
  ghost predicate TokensFound(tokens: seq<Option<nat>>, list: CString, n: nat)
    requires n <= |list|
  {
    var ds := Delimiters(list[..n]);
    && |tokens| == TOKENARRAYSIZE && |ds| < TOKENARRAYSIZE
    && tokens[0] == Some(0)
    && (forall k | 1 <= k <= |ds| :: tokens[k] == Some(ds[k - 1] + 1))
    && (forall k | |ds| < k < TOKENARRAYSIZE :: tokens[k] == None)
  }

  lemma FirstToken(tokens: seq<Option<nat>>, list: CString)
    requires |tokens| == TOKENARRAYSIZE && tokens[0] == Some(0)
    requires forall k | 0 < k < TOKENARRAYSIZE :: tokens[k] == None
    ensures TokensFound(tokens, list, 0) && Delimiters(list[..0]) == []
  {
  }

  lemma TokensStep(tokens: seq<Option<nat>>, list: CString, i: nat)
    requires i < |list| && TokensFound(tokens, list, i) && |Delimiters(list)| + 1 < TOKENARRAYSIZE
    ensures !IsDelimiter(list[i]) ==> TokensFound(tokens, list, i + 1)
    ensures var b := |Delimiters(list[..i])| + 1;
      b < TOKENARRAYSIZE && (IsDelimiter(list[i]) ==> TokensFound(tokens[b := Some(i + 1)], list, i + 1))
  {
    hide Delimiters;
    DelimitersStep(list, i);
  }

  /** Another token after token `i` says that token `i` is the start of an entry. */
  lemma TokenAt(tokens: seq<Option<nat>>, list: CString, i: nat)
    requires TokensFound(tokens, list, |list|) && i <= |Delimiters(list)| && |Delimiters(list)| + 1 < TOKENARRAYSIZE
    ensures i + 1 < |tokens| && tokens[i] == Some(Start(list, i)) && (tokens[i + 1] != None <==> i < |Delimiters(list)|)
  {
    assert list[..|list|] == list;
  }

  /** The list after `i` characters: cut up to there, and as it was from there on. */
  ghost predicate HalfCut(buf: CString, list: CString, i: nat) {
    && |buf| == |list| && i <= |list|
    && (forall k | 0 <= k < i :: buf[k] == CutChar(list[k]))
    && (forall k | i <= k < |list| :: buf[k] == list[k])
  }

  lemma HalfCutStep(buf: CString, list: CString, i: nat)
    requires HalfCut(buf, list, i) && i < |list|
    ensures |buf| == |list| && buf[i] == list[i]
    ensures IsDelimiter(list[i]) ==> HalfCut(buf[i := 0], list, i + 1)
    ensures !IsDelimiter(list[i]) ==> HalfCut(buf, list, i + 1)
  {
    hide CharLookup;
  }

  lemma StartCut(list: CString)
    ensures HalfCut(list, list, 0)
  {
  }

  lemma AllCut(buf: CString, list: CString)
    requires HalfCut(buf, list, |list|)
    ensures buf == Cut(list) && list[..|list|] == list
  {
    hide CutChar;
  }

  /** One token per entry and one for what follows the last delimiter; the array must not be full. */
  method FillTokenArray(fileMap: array<CChar>, tokens: array<Option<nat>>)
    requires fileMap as object != tokens as object
    requires tokens.Length == TOKENARRAYSIZE && forall k | 0 <= k < TOKENARRAYSIZE :: tokens[k] == None
    requires |Delimiters(fileMap[..])| + 1 < TOKENARRAYSIZE
    modifies fileMap, tokens
    ensures fileMap[..] == Cut(old(fileMap[..]))
    ensures TokensFound(tokens[..], old(fileMap[..]), fileMap.Length)
  {
    ghost var list := fileMap[..];
    var i, blankCount := 0, 0;
    tokens[blankCount] := Some(0);
    blankCount := blankCount + 1;
    FirstToken(tokens[..], list);
    StartCut(list);
    hide TokensFound, Delimiters, CharLookup, HalfCut, Cut;
    while i < fileMap.Length
      invariant i <= fileMap.Length
      invariant HalfCut(fileMap[..], list, i)
      invariant blankCount == |Delimiters(list[..i])| + 1 <= |Delimiters(list)| + 1
      invariant TokensFound(tokens[..], list, i)
    {
      DelimitersStep(list, i);
      TokensStep(tokens[..], list, i);
      ghost var buf, found := fileMap[..], tokens[..];
      HalfCutStep(buf, list, i);
      assert fileMap[i] == buf[i];
      if fileMap[i] < 127 {
        if CharLookup(fileMap[i]) != 1 {
          fileMap[i] := 0;
          assert fileMap[..] == buf[i := 0];
          if blankCount >= TOKENARRAYSIZE {
            break;
          }
          tokens[blankCount] := Some(i + 1);
          assert tokens[..] == found[blankCount := Some(i + 1)];
          blankCount := blankCount + 1;
        }
      }
      i := i + 1;
    }
    AllCut(fileMap[..], list);
  }

  // ---------- The tree of checksums ----------

  ghost function EntryKeys(list: CString, n: nat): set<Key>
    requires n <= |Delimiters(list)|
  {
    set k: nat | k < n :: PathKey(Truncated(Entry(list, k)))
  }

  lemma NoKeys(list: CString)
    ensures EntryKeys(list, 0) == {} == Keys<RbHeap.RbNode>(Leaf)
  {
  }

  lemma NextKey(list: CString, k: nat)
    requires k < |Delimiters(list)|
    ensures EntryKeys(list, k + 1) == EntryKeys(list, k) + {PathKey(Truncated(Entry(list, k)))}
  {
    hide Entry, PathKey, Truncated, Delimiters;
  }

  class ExemptList {
    var tree: RbHeap.JswRbTree?

    /** The list the tree was filled from, if one was loaded. */
    ghost var source: Option<CString>

    ghost predicate Valid()
      reads this, tree, if tree != null then tree.store.Keys else {}
    {
      if tree == null then source == None
      else
        && source.Some? && tree.Valid()
        && Keys(tree.tree) == EntryKeys(source.value, |Delimiters(source.value)|)
    }

    constructor ()
      ensures Valid() && source == None
    {
      tree, source := null, None;
    }

    /** Fills a new tree from a cut list file. */
    method CreateAndStoreFileNames(fileMap: array<CChar>, tokens: array<Option<nat>>, ghost list: CString)
      requires fileMap[..] == Cut(list) && |Delimiters(list)| + 1 < TOKENARRAYSIZE
      requires TokensFound(tokens[..], list, |list|)
      modifies this
      ensures Valid() && source == Some(list)
    {
      hide TokensFound, Delimiters, Start, EntryKeys, StringAt, Entry, PathKey, Truncated;
      hide RbHeap.JswRbTree.Valid, Keys;
      var t := new RbHeap.JswRbTree();
      var i := 0;
      NoKeys(list);
      while i < TOKENARRAYSIZE
        invariant i <= |Delimiters(list)| && fresh(t) && t.Valid() && fresh(t.store.Keys)
        invariant Keys(t.tree) == EntryKeys(list, i)
        invariant fileMap[..] == Cut(list) && TokensFound(tokens[..], list, |list|)
      {
        TokenAt(tokens[..], list, i);
        assert tokens[..][i + 1] == tokens[i + 1] && tokens[..][i] == tokens[i];
        if tokens[i + 1] == None {
          break;
        }
        EntryString(list, i);
        var path := Truncated(StringAt(fileMap[..], tokens[i].value));
        var key := PathChecksum(path);
        var _ := t.Insert(key);
        NextKey(list, i);
        i := i + 1;
      }
      tree := t;
      source := Some(list);
    }

    /** Loads a list file; an empty file is an error and leaves everything as it was. */
    method ReadListFile(fileMap: array<CChar>) returns (rval: int)
      requires Valid() && |Delimiters(fileMap[..])| + 1 < TOKENARRAYSIZE
      modifies this, fileMap
      ensures Valid()
      ensures fileMap.Length > 0 ==> rval == 0 && source == Some(old(fileMap[..]))
      ensures fileMap.Length == 0 ==> rval == -1 && source == old(source)
    {
      if fileMap.Length == 0 {
        return -1;
      }
      ghost var list := fileMap[..];
      var tokens := new Option<nat>[TOKENARRAYSIZE](_ => None);
      FillTokenArray(fileMap, tokens);
      CreateAndStoreFileNames(fileMap, tokens, list);
      return 0;
    }

    /** No backup exactly when a list is loaded and has an entry with the checksum of the path. */
    method BackupNeeded(path: CString) returns (rval: int)
      requires Valid()
      ensures rval in {CREATE_BACKUP, DONT_CREATE_BACKUP}
      ensures rval == DONT_CREATE_BACKUP <==> Exempt(source, path)
      ensures source.Some? && |path| < PATH_SIZE && Listed(source.value, path) ==> rval == DONT_CREATE_BACKUP
    {
      rval := CREATE_BACKUP;
      if tree != null {
        var key := PathChecksum(path);
        var found, _ := tree.Find(key);
        if found != null {
          rval := DONT_CREATE_BACKUP;
        }
        KeysAreListed(source.value, path);
        SelfSame(path);
      }
    }
  }

  /** The key of a path is in the tree exactly if a listed entry has the checksum of the path. */
  lemma KeysAreListed(list: CString, path: CString)
    ensures PathKey(path) in EntryKeys(list, |Delimiters(list)|) <==> Exempt(Some(list), path)
  {
    hide SameChecksum, Truncated, Entry, Listed, PathKey, Delimiters;
    var keys := EntryKeys(list, |Delimiters(list)|);
    if PathKey(path) in keys {
      var k: nat :| k < |Delimiters(list)| && PathKey(Truncated(Entry(list, k))) == PathKey(path);
      EntriesAreListed(list, Entry(list, k));
      KeyIsChecksum(Truncated(Entry(list, k)), path);
    }
    if entry :| Listed(list, entry) && SameChecksum(Truncated(entry), path) {
      EntriesAreListed(list, entry);
      KeyIsChecksum(Truncated(entry), path);
      var k: nat :| k < |Delimiters(list)| && Entry(list, k) == entry;
      assert PathKey(Truncated(Entry(list, k))) == PathKey(path);
    }
  }

  lemma SelfSame(path: CString)
    ensures SameChecksum(path, path)
  {
    KeyIsChecksum(path, path);
  }

  /** The paths differ, but only within four consecutive characters. */
  ghost predicate CloseTo(a: CString, b: CString, i: nat) {
    && |a| == |b| && a != b
    && forall k | 0 <= k < |a| && !(i <= k < i + 4) :: a[k] == b[k]
  }

  ghost predicate PathAvoids(path: CString) {
    forall bytes | IsBytes(path, bytes) :: Crc32.Avoids(Crc32.Flip(Crc32.Reg(0)), bytes)
  }

  lemma CloseBytes(a: CString, b: CString, i: nat)
    requires CloseTo(a, b, i)
    ensures Crc32.DifferInWindow(Bytes(a), Bytes(b), i)
  {
    var x, y := Bytes(a), Bytes(b);
    if x == y {
      forall k | 0 <= k < |a|
        ensures a[k] == b[k]
      {
        ByteOf(a[k] as nat);
        ByteOf(b[k] as nat);
        assert x[k] == y[k];
      }
    }
    assert forall k | 0 <= k < |a| :: a[k] == b[k] ==> x[k] == y[k];
  }

  /**
   A path that differs from the only entry of the list, within four characters, keeps its backup if
   the checksums of the two do not select table entry 255.
   */
  lemma OtherPathNotExempt(list: CString, entry: CString, path: CString, i: nat)
    requires (forall e :: Listed(list, e) <==> e == entry) && |entry| < 128
    requires CloseTo(entry, path, i)
    ensures PathAvoids(entry) && PathAvoids(path) ==> !Exempt(Some(list), path)
  {
    if PathAvoids(entry) && PathAvoids(path) && SameChecksum(entry, path) {
      BytesIff(entry, Bytes(entry));
      BytesIff(path, Bytes(path));
      CloseBytes(entry, path, i);
      hide Crc32.Crc, Crc32.Avoids, Crc32.DifferInWindow, IsBytes, Bytes, CloseTo;
      Crc32.BurstDetected(Crc32.Reg(0), Bytes(entry), Bytes(path), i);
      var x, y :| IsBytes(entry, x) && IsBytes(path, y) && Crc32.Crc(Crc32.Reg(0), x) == Crc32.Crc(Crc32.Reg(0), y);
      BytesIff(entry, x);
      BytesIff(path, y);
      assert false;
    }
    assert Truncated(entry) == entry;
  }
}
