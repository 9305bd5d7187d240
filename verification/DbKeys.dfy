/**
 The names under which values are kept: the key printed into a database for a context and a
 resource (src/persistence_client_library_prct_access.c), and the part of such a key that is looked
 up in the backup list (src/persistence_client_library_file.c).
 */
module DbKeys {
  import opened Text

  const UINT_LIMIT := 0x1_0000_0000

  type UInt = n: int | 0 <= n < UINT_LIMIT

  datatype Context = Context(ldbid: UInt, user: UInt, seat: UInt)

  const NODE := "/node"
  const USER := "/user/"
  const SEAT := "/seat/"

  /** The kind of database a logical database id stands for. */
  datatype Table = LocalTable | PublicTable | GroupTable(group: nat)

  function TableOf(ldbid: UInt): Table {
    if ldbid < 0x80 then (if ldbid != 0 then GroupTable(ldbid) else PublicTable) else LocalTable
  }

  /** Without the id of the database in front, or with it. */
  predicate PlainForm(ldbid: UInt) {
    ldbid < 0x80 || ldbid == 0xFF
  }

  function UserStem(user: UInt, seat: UInt): string {
    USER + PrintSigned(user) + if seat == 0 then "" else SEAT + PrintSigned(seat)
  }

  function UserPart(user: UInt, seat: UInt, resource: string): string {
    UserStem(user, seat) + "/" + resource
  }

  function DbKey(c: Context, resource: string): string {
    if PlainForm(c.ldbid) then
      if c.user == 0 && c.seat == 0 then NODE + "/" + resource else UserPart(c.user, c.seat, resource)
    else "/" + Print(c.ldbid, 16) + UserPart(c.user, c.seat, resource)
  }

  // ---------- What a key says, name by name ----------

  /** Names with a slash in front of each. */
  function Path(names: seq<string>): string
    decreases |names|
  {
    if names == [] then "" else "/" + names[0] + Path(names[1..])
  }

  /**
   The names before the resource: the database id in hexadecimal for local databases other than 0xFF,
   then node, or user and seat with their numbers, as far as they are not zero.
   */
  predicate NamesOf(c: Context, names: seq<string>) {
    if 0x80 <= c.ldbid && c.ldbid != 0xFF then
      names != [] && Numeral(names[0], 16) && Parse(names[0], 16) == c.ldbid && UserNames(c, names[1..])
    else if c.user == 0 && c.seat == 0 then names == ["node"]
    else UserNames(c, names)
  }

  predicate UserNames(c: Context, names: seq<string>) {
    && |names| == (if c.seat == 0 then 2 else 4)
    && names[0] == "user" && SignedNumeral(names[1], c.user)
    && (c.seat != 0 ==> names[2] == "seat" && SignedNumeral(names[3], c.seat))
  }

  lemma PathSnoc(names: seq<string>, name: string)
    ensures Path(names + [name]) == Path(names) + "/" + name
    decreases |names|
  {
    if names != [] {
      assert (names + [name])[1..] == names[1..] + [name];
      PathSnoc(names[1..], name);
    }
  }

  lemma ShortPaths(a: string, b: string, c: string, d: string)
    ensures Path([a]) == "/" + a && Path([a, b]) == "/" + a + "/" + b
    ensures Path([a, b, c, d]) == "/" + a + "/" + b + "/" + c + "/" + d
  {
    PathSnoc([], a);
    PathSnoc([a], b);
    PathSnoc([a, b], c);
    PathSnoc([a, b, c], d);
    assert [] + [a] == [a] && [a] + [b] == [a, b] && [a, b] + [c] == [a, b, c] && [a, b, c] + [d] == [a, b, c, d];
  }

  lemma Joined(a: string, b: string, c: string, d: string)
    ensures a + (b + c + d) == a + b + c + d && a + (b + c) == a + b + c
  {
    assert a + (b + c) == a + b + c;
  }

  lemma UserStemIff(c: Context, names: seq<string>)
    requires UserNames(c, names)
    ensures Path(names) == UserStem(c.user, c.seat)
  {
    SignedIff(names[1], c.user);
    if c.seat != 0 {
      SignedIff(names[3], c.seat);
    }
    hide Path, SignedNumeral, PrintSigned;
    ShortPaths(names[0], names[1], "seat", PrintSigned(c.seat));
    assert USER == "/" + "user" + "/" && SEAT == "/" + "seat" + "/";
    if c.seat == 0 {
      assert names == ["user", names[1]];
    } else {
      assert names == ["user", names[1], "seat", names[3]];
      Joined(USER + names[1], "/" + "seat", "/", names[3]);
      Joined(USER + names[1], "/", "seat", "");
    }
  }

  lemma SomeUserNames(c: Context) returns (names: seq<string>)
    ensures UserNames(c, names)
  {
    var u, s := PrintSigned(c.user), PrintSigned(c.seat);
    SignedIff(u, c.user);
    SignedIff(s, c.seat);
    names := if c.seat == 0 then ["user", u] else ["user", u, "seat", s];
  }

  lemma NamesGive(c: Context, names: seq<string>, resource: string)
    requires NamesOf(c, names)
    ensures Path(names + [resource]) == DbKey(c, resource)
  {
    PathSnoc(names, resource);
    var stem := UserStem(c.user, c.seat);
    if !PlainForm(c.ldbid) {
      NumeralIff(names[0], c.ldbid, 16);
      UserStemIff(c, names[1..]);
      Joined("/" + names[0], stem, "/", resource);
    } else if c.user == 0 && c.seat == 0 {
      ShortPaths("node", "", "", "");
    } else {
      UserStemIff(c, names);
    }
    hide UserStem, UserNames, Numeral, Parse, Print;
  }

  /** The key of a context and resource is the one path of these names and the resource. */
  lemma KeyIff(c: Context, resource: string, key: string)
    ensures key == DbKey(c, resource) <==> exists names :: NamesOf(c, names) && key == Path(names + [resource])
  {
    var user := SomeUserNames(c);
    var h := Print(c.ldbid, 16);
    NumeralIff(h, c.ldbid, 16);
    var names := if !PlainForm(c.ldbid) then [h] + user else if c.user == 0 && c.seat == 0 then ["node"] else user;
    assert !PlainForm(c.ldbid) ==> names[1..] == user;
    NamesGive(c, names, resource);
    forall ns | NamesOf(c, ns)
      ensures Path(ns + [resource]) == DbKey(c, resource)
    {
      NamesGive(c, ns, resource);
    }
  }

  // ---------- Reading printed keys apart ----------

  predicate NoSlash(s: string) {
    '/' !in s
  }

  lemma PrintNoSlash(n: nat, base: nat)
    requires 2 <= base <= 16
    ensures NoSlash(Print(n, base))
  {
    assert !IsDigit('/', base);
  }

  lemma SignedNoSlash(n: UInt)
    ensures NoSlash(PrintSigned(n)) && PrintSigned(n) != ""
  {
    if n < 0x8000_0000 {
      PrintNoSlash(n, 10);
    } else {
      PrintNoSlash(UINT_LIMIT - n, 10);
    }
  }

  /** Up to the first slash, and what follows it. */
  lemma SplitAtSlash(a: string, x: string, b: string, y: string)
    requires NoSlash(a) && NoSlash(b) && a + "/" + x == b + "/" + y
    ensures a == b && x == y
  {
    var s, t := a + "/" + x, b + "/" + y;
    assert s[|a|] == '/' && t[|b|] == '/';
    assert forall i | 0 <= i < |a| :: s[i] == a[i] && a[i] in a;
    assert forall i | 0 <= i < |b| :: t[i] == b[i] && b[i] in b;
    assert |a| == |b|;
    assert a == s[..|a|] && b == t[..|b|] && x == s[|a| + 1..] && y == t[|b| + 1..];
  }

  lemma DropSame(p: string, x: string, y: string)
    requires p + x == p + y
    ensures x == y
  {
    assert x == (p + x)[|p|..] && y == (p + y)[|p|..];
  }

  /** What follows the user number and its slash. */
  function SeatPart(seat: UInt, resource: string): string {
    if seat == 0 then resource else "seat/" + (PrintSigned(seat) + "/" + resource)
  }

  lemma UserPartIs(user: UInt, seat: UInt, resource: string)
    ensures UserPart(user, seat, resource) == USER + (PrintSigned(user) + "/" + SeatPart(seat, resource))
  {
    var u, s := PrintSigned(user), PrintSigned(seat);
    if seat == 0 {
      assert UserPart(user, seat, resource) == USER + (u + "/" + resource);
    } else {
      assert SEAT == "/" + "seat/";
      assert UserPart(user, seat, resource) == USER + (u + "/" + ("seat/" + (s + "/" + resource)));
    }
  }

  /**
   A resource of seat 0 whose own name begins like a seat is printed like one of that seat.
   */
  ghost predicate Shadows(seat1: UInt, resource1: string, seat2: UInt, resource2: string) {
    seat1 == 0 && seat2 != 0 && resource1 == SeatPart(seat2, resource2)
  }

  lemma SeatPartEqual(s1: UInt, r1: string, s2: UInt, r2: string)
    ensures SeatPart(s1, r1) == SeatPart(s2, r2) <==>
      (s1 == s2 && r1 == r2) || Shadows(s1, r1, s2, r2) || Shadows(s2, r2, s1, r1)
  {
    if s1 != 0 && s2 != 0 && SeatPart(s1, r1) == SeatPart(s2, r2) {
      DropSame("seat/", PrintSigned(s1) + "/" + r1, PrintSigned(s2) + "/" + r2);
      SignedNoSlash(s1);
      SignedNoSlash(s2);
      SplitAtSlash(PrintSigned(s1), r1, PrintSigned(s2), r2);
      PrintSignedInjective(s1, s2);
    }
  }

  lemma UserPartEqual(u1: UInt, s1: UInt, r1: string, u2: UInt, s2: UInt, r2: string)
    ensures UserPart(u1, s1, r1) == UserPart(u2, s2, r2) <==>
      u1 == u2 && ((s1 == s2 && r1 == r2) || Shadows(s1, r1, s2, r2) || Shadows(s2, r2, s1, r1))
  {
    UserPartIs(u1, s1, r1);
    UserPartIs(u2, s2, r2);
    SeatPartEqual(s1, r1, s2, r2);
    if UserPart(u1, s1, r1) == UserPart(u2, s2, r2) {
      DropSame(USER, PrintSigned(u1) + "/" + SeatPart(s1, r1), PrintSigned(u2) + "/" + SeatPart(s2, r2));
      SignedNoSlash(u1);
      SignedNoSlash(u2);
      SplitAtSlash(PrintSigned(u1), SeatPart(s1, r1), PrintSigned(u2), SeatPart(s2, r2));
      PrintSignedInjective(u1, u2);
    }
  }

  /** The first name in a key: node, user, or a hexadecimal number. */
  function FirstName(c: Context): string {
    if !PlainForm(c.ldbid) then Print(c.ldbid, 16) else if c.user == 0 && c.seat == 0 then "node" else "user"
  }

  function AfterFirst(c: Context, resource: string): string {
    if !PlainForm(c.ldbid) then UserPart(c.user, c.seat, resource)[1..]
    else if c.user == 0 && c.seat == 0 then resource
    else UserPart(c.user, c.seat, resource)[|USER|..]
  }

  lemma UserStart(rest: string)
    ensures var u := USER + rest;
      u == "/" + u[1..] && u[|USER|..] == rest && u == "/" + ("user" + "/" + rest)
  {
    var u := USER + rest;
    assert u[1..] == USER[1..] + rest;
    assert "user" + "/" == USER[1..];
    assert u == "/" + u[1..];
    assert u == "/" + (USER[1..] + rest);
  }

  lemma UserPartStart(user: UInt, seat: UInt, resource: string)
    ensures var u := UserPart(user, seat, resource);
      |USER| <= |u| && u == "/" + u[1..] && u == "/" + ("user" + "/" + u[|USER|..])
  {
    hide UserPart;
    UserPartIs(user, seat, resource);
    UserStart(PrintSigned(user) + "/" + SeatPart(seat, resource));
  }

  lemma KeyIs(c: Context, resource: string)
    ensures DbKey(c, resource) == "/" + (FirstName(c) + "/" + AfterFirst(c, resource)) && NoSlash(FirstName(c))
  {
    hide UserPart;
    UserPartStart(c.user, c.seat, resource);
    var u := UserPart(c.user, c.seat, resource);
    if !PlainForm(c.ldbid) {
      PrintNoSlash(c.ldbid, 16);
      var h := Print(c.ldbid, 16);
      assert "/" + h + u == "/" + (h + "/" + u[1..]);
    } else if c.user == 0 && c.seat == 0 {
      assert NODE + "/" + resource == "/" + ("node" + "/" + resource);
    }
  }

  lemma HexIsNoWord(n: nat)
    ensures Print(n, 16) != "node" && Print(n, 16) != "user"
  {
    assert !IsDigit('n', 16) && !IsDigit('u', 16);
    assert Print(n, 16)[0] in Print(n, 16);
    assert "node"[0] == 'n' && "user"[0] == 'u';
  }

  lemma FirstNameEqual(c1: Context, c2: Context)
    requires TableOf(c1.ldbid) == TableOf(c2.ldbid)
    ensures FirstName(c1) == FirstName(c2) ==>
      c1.ldbid == c2.ldbid
      && (PlainForm(c1.ldbid) ==> (c1.user == 0 && c1.seat == 0 <==> c2.user == 0 && c2.seat == 0))
  {
    HexIsNoWord(c1.ldbid);
    HexIsNoWord(c2.ldbid);
    PrintInjective(c1.ldbid, c2.ldbid, 16);
    assert "node"[0] != "user"[0];
  }

  ghost predicate KeyShadows(c1: Context, r1: string, c2: Context, r2: string) {
    && c1.ldbid == c2.ldbid && c1.user == c2.user && Shadows(c1.seat, r1, c2.seat, r2)
    && (PlainForm(c1.ldbid) ==> c1.user != 0)
  }

  /**
   Within one database directory, keys are equal exactly for the same context and resource, or if one
   resource is named like the seat of the other.
   */
  lemma KeysEqual(c1: Context, r1: string, c2: Context, r2: string)
    requires TableOf(c1.ldbid) == TableOf(c2.ldbid)
    ensures DbKey(c1, r1) == DbKey(c2, r2) <==>
      (c1 == c2 && r1 == r2) || KeyShadows(c1, r1, c2, r2) || KeyShadows(c2, r2, c1, r1)
  {
    KeyIs(c1, r1);
    KeyIs(c2, r2);
    UserPartEqual(c1.user, c1.seat, r1, c2.user, c2.seat, r2);
    UserPartIs(c1.user, c1.seat, r1);
    UserPartIs(c2.user, c2.seat, r2);
    if DbKey(c1, r1) == DbKey(c2, r2) {
      DropSame("/", FirstName(c1) + "/" + AfterFirst(c1, r1), FirstName(c2) + "/" + AfterFirst(c2, r2));
      SplitAtSlash(FirstName(c1), AfterFirst(c1, r1), FirstName(c2), AfterFirst(c2, r2));
      FirstNameEqual(c1, c2);
      SameTail(c1, r1, c2, r2);
    }
  }

  lemma SameTail(c1: Context, r1: string, c2: Context, r2: string)
    requires AfterFirst(c1, r1) == AfterFirst(c2, r2) && c1.ldbid == c2.ldbid
    requires PlainForm(c1.ldbid) ==> (c1.user == 0 && c1.seat == 0 <==> c2.user == 0 && c2.seat == 0)
    ensures if PlainForm(c1.ldbid) && c1.user == 0 && c1.seat == 0 then r1 == r2
            else UserPart(c1.user, c1.seat, r1) == UserPart(c2.user, c2.seat, r2)
  {
    var u1, u2 := UserPart(c1.user, c1.seat, r1), UserPart(c2.user, c2.seat, r2);
    UserPartIs(c1.user, c1.seat, r1);
    UserPartIs(c2.user, c2.seat, r2);
    assert u1 == "/" + u1[1..] && u2 == "/" + u2[1..];
    assert u1 == USER + u1[|USER|..] && u2 == USER + u2[|USER|..];
  }

  /** For resources not named like a seat the key decodes to its context and resource. */
  lemma KeysDecode(c1: Context, r1: string, c2: Context, r2: string)
    requires TableOf(c1.ldbid) == TableOf(c2.ldbid) && DbKey(c1, r1) == DbKey(c2, r2)
    requires !("seat/" <= r1) && !("seat/" <= r2)
    ensures c1 == c2 && r1 == r2
  {
    KeysEqual(c1, r1, c2, r2);
  }

  // ---------- The raw part of a key ----------

  function Slashes(s: string): nat {
    if s == "" then 0 else Slashes(s[..|s| - 1]) + if s[|s| - 1] == '/' then 1 else 0
  }

  /** `r` is the position of the fifth slash, or past the end if there are fewer. */
  predicate RawAt(s: string, r: nat) {
    if r < |s| then s[r] == '/' && Slashes(s[..r]) == 4 else r == |s| && Slashes(s) < 5
  }

  method GetRawString(dbKey: array<char>) returns (keyPtr: nat)
    requires dbKey.Length > 0
    ensures RawAt(dbKey[..], keyPtr)
  {
    var cnt, i := 0, 0;
    keyPtr := 0;
    while i < dbKey.Length
      invariant i <= dbKey.Length
      invariant cnt == Slashes(dbKey[..i]) <= 4
      invariant keyPtr == if i == 0 then 0 else i - 1
    {
      assert dbKey[..i + 1][..i] == dbKey[..i];
      if dbKey[i] == '/' {
        cnt := cnt + 1;
      }
      if cnt >= 5 {
        assert dbKey[..][..i] == dbKey[..i];
        break;
      }
      keyPtr := i;
      i := i + 1;
    }
    assert dbKey[..dbKey.Length] == dbKey[..];
    keyPtr := keyPtr + 1;
  }

  lemma {:induction false} SlashesConcat(a: string, b: string)
    ensures Slashes(a + b) == Slashes(a) + Slashes(b)
    decreases |b|
  {
    if b == "" {
      assert a + b == a;
    } else {
      assert (a + b)[..|a + b| - 1] == a + b[..|b| - 1];
      SlashesConcat(a, b[..|b| - 1]);
    }
  }

  lemma {:induction false} NoSlashCount(s: string)
    requires NoSlash(s)
    ensures Slashes(s) == 0
    decreases |s|
  {
    if s != "" {
      NoSlashCount(s[..|s| - 1]);
    }
  }

  /** What stands before "/" and the resource in a key, and how many slashes that are. */
  function KeyStem(c: Context): string {
    (if PlainForm(c.ldbid) then "" else "/" + Print(c.ldbid, 16))
    + if PlainForm(c.ldbid) && c.user == 0 && c.seat == 0 then NODE else UserStem(c.user, c.seat)
  }

  function StemSlashes(c: Context): nat {
    (if PlainForm(c.ldbid) then 0 else 1)
    + if PlainForm(c.ldbid) && c.user == 0 && c.seat == 0 then 1 else if c.seat == 0 then 2 else 4
  }

  lemma StemOf(c: Context, resource: string)
    ensures DbKey(c, resource) == KeyStem(c) + ("/" + resource)
  {
    hide UserStem;
  }

  lemma OneSlash()
    ensures Slashes("") == 0 && Slashes("/") == 1
  {
    assert "/"[..0] == "";
  }

  lemma UserStemCount(user: UInt, seat: UInt)
    ensures Slashes(UserStem(user, seat)) == if seat == 0 then 2 else 4
  {
    var u, s := PrintSigned(user), PrintSigned(seat);
    SignedNoSlash(user);
    SignedNoSlash(seat);
    NoSlashCount(u);
    NoSlashCount(s);
    OneWord("user");
    OneWord("seat");
    OneSlash();
    hide Slashes, PrintSigned, NoSlash;
    assert USER == "/" + "user" + "/" && SEAT == "/" + "seat" + "/";
    SlashesConcat(USER, u);
    SlashesConcat(SEAT, s);
    SlashesConcat(USER + u, if seat == 0 then "" else SEAT + s);
  }

  lemma StemCount(c: Context)
    ensures Slashes(KeyStem(c)) == StemSlashes(c)
  {
    var h := Print(c.ldbid, 16);
    PrintNoSlash(c.ldbid, 16);
    NoSlashCount(h);
    OneWord("node");
    OneSlash();
    UserStemCount(c.user, c.seat);
    hide Slashes, Print, NoSlash, UserStem;
    assert NODE == "/" + "node";
    SlashesConcat("/", h);
    var front := if PlainForm(c.ldbid) then "" else "/" + h;
    SlashesConcat(front, if PlainForm(c.ldbid) && c.user == 0 && c.seat == 0 then NODE else UserStem(c.user, c.seat));
  }

  lemma OneWord(w: string)
    requires w in {"node", "user", "seat"}
    ensures Slashes("/" + w) == 1 && Slashes("/" + w + "/") == 2
  {
    NoSlashCount(w);
    SlashesConcat("/", w);
    SlashesConcat("/" + w, "/");
    assert Slashes("") == 0 && "/"[..0] == "";
    assert Slashes("/") == 1;
  }

  lemma {:induction false} RawUnique(s: string, r: nat, q: nat)
    requires RawAt(s, r) && RawAt(s, q)
    ensures r == q
  {
    assert s[..|s|] == s;
    if r < q {
      RawBefore(s, r, q);
    } else if q < r {
      RawBefore(s, q, r);
    }
  }

  lemma RawBefore(s: string, r: nat, q: nat)
    requires r < q <= |s| && s[r] == '/'
    ensures Slashes(s[..q]) > Slashes(s[..r])
  {
    assert s[..q] == s[..r] + s[r..q];
    SlashesConcat(s[..r], s[r..q]);
    assert s[r..q] == "/" + s[r + 1..q];
    SlashesConcat("/", s[r + 1..q]);
    assert "/"[..0] == "" && Slashes("") == 0;
    assert Slashes("/") == 1;
  }

  /**
   The raw part of a key, in a buffer with `pad` after it, is "/" and the resource exactly for keys
   of a seat that do not begin with a database id; for these it is the same for every user and seat.
   */
  lemma RawIsResource(c: Context, resource: string, pad: string, r: nat)
    requires RawAt(DbKey(c, resource) + pad, r)
    ensures (DbKey(c, resource) + pad)[r..] == "/" + resource + pad <==> PlainForm(c.ldbid) && c.seat != 0
  {
    var stem, s := KeyStem(c), DbKey(c, resource) + pad;
    StemOf(c, resource);
    StemCount(c);
    hide KeyStem, DbKey, Slashes;
    assert s == stem + ("/" + resource + pad);
    assert s[..|stem|] == stem && s[|stem|] == '/' && s[|stem|..] == "/" + resource + pad;
    assert Slashes(stem) == 4 <==> PlainForm(c.ldbid) && c.seat != 0;
    if Slashes(stem) == 4 {
      RawUnique(s, |stem|, r);
    }
    assert r == |stem| ==> s[..r] == stem;
  }
}
