/**
 Whether an opened file gets a backup (src/persistence_client_library_file.c): its database key is
 printed into a buffer, and the raw part of it is looked up in the list of exempt resources.
 */
module FileExemption {
  import opened Options
  import opened DbKeys
  import opened BackupList
  import opened CStrings

  /** Characters of keys are bytes. */
  function Chars(s: string): (t: CString)
    ensures |t| == |s| && forall i | 0 <= i < |s| && s[i] as int < 256 :: t[i] as int == s[i] as int
  {
    seq(|s|, i requires 0 <= i < |s| => CharOf(s[i]))
  }

  function CharOf(c: char): CChar {
    (c as int % 256) as CChar
  }

  /** A resource id ends where its C string does. */
  predicate NoEnd(s: string) {
    forall c | c in s :: CharOf(c) != 0
  }

  lemma {:induction false} StringEnds(buf: CString, p: nat, j: nat)
    requires p <= j < |buf| && buf[j] == 0 && forall k | p <= k < j :: buf[k] != 0
    ensures StringAt(buf, p) == buf[p..j]
    decreases j - p
  {
    if p < j {
      StringEnds(buf, p + 1, j);
    }
  }

  /** The path looked up for a file of a seat is "/" and the resource. */
  lemma RawPath(c: Context, resource: string, pad: string, r: nat)
    requires PlainForm(c.ldbid) && c.seat != 0 && NoEnd(resource) && pad != [] && CharOf(pad[0]) == 0
    requires RawAt(DbKey(c, resource) + pad, r)
    ensures StringAt(Chars(DbKey(c, resource) + pad), r) == Chars("/" + resource)
  {
    hide DbKey, Slashes;
    RawIsResource(c, resource, pad, r);
    var s, path := DbKey(c, resource) + pad, "/" + resource;
    assert r <= |s| && s[r..] == path + pad;
    var j := r + |path|;
    forall k | r <= k < j
      ensures Chars(s)[k] == CharOf(path[k - r]) && Chars(s)[k] != 0
    {
      assert s[k] == s[r..][k - r] == path[k - r];
      assert k > r ==> path[k - r] == resource[k - r - 1] && resource[k - r - 1] in resource;
    }
    assert s[j] == s[r..][|path|] == pad[0];
    StringEnds(Chars(s), r, j);
    assert Chars(s)[r..j] == Chars(path);
  }

  /** The same resource is exempt for all users and seats or for none. */
  lemma SameForAll(source: Option<CString>, resource: string, pad: string, c1: Context, r1: nat, c2: Context, r2: nat)
    requires PlainForm(c1.ldbid) && c1.seat != 0 && PlainForm(c2.ldbid) && c2.seat != 0
    requires NoEnd(resource) && pad != [] && CharOf(pad[0]) == 0
    requires RawAt(DbKey(c1, resource) + pad, r1) && RawAt(DbKey(c2, resource) + pad, r2)
    ensures Exempt(source, StringAt(Chars(DbKey(c1, resource) + pad), r1))
       <==> Exempt(source, StringAt(Chars(DbKey(c2, resource) + pad), r2))
  {
    hide DbKey, RawAt, Exempt, StringAt, Chars;
    RawPath(c1, resource, pad, r1);
    RawPath(c2, resource, pad, r2);
  }

  /** The decision taken on opening; for files of a seat it looks at nothing but the resource. */
  method FileNeedsBackup(list: ExemptList, dbKey: array<char>, ghost c: Context, ghost resource: string, ghost pad: string)
    returns (rval: int)
    requires list.Valid() && dbKey[..] == DbKey(c, resource) + pad && pad != [] && CharOf(pad[0]) == 0
    ensures rval in {CREATE_BACKUP, DONT_CREATE_BACKUP}
    ensures PlainForm(c.ldbid) && c.seat != 0 && NoEnd(resource) ==>
      (rval == DONT_CREATE_BACKUP <==> Exempt(list.source, Chars("/" + resource)))
  {
    var raw := GetRawString(dbKey);
    if PlainForm(c.ldbid) && c.seat != 0 && NoEnd(resource) {
      RawPath(c, resource, pad, raw);
    }
    rval := list.BackupNeeded(StringAt(Chars(dbKey[..]), raw));
  }
}
