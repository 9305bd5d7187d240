/**
 The crash protocol of a protected file: the original, its backup copy and the checksum of the
 content the backup was taken from (src/persistence_client_library_backup_filelist.c,
 src/persistence_client_library_file.c).

 Every change of a file is one `FileOp`. Power may be lost before or during any of them; an
 interrupted copy or write leaves some first part of its data behind.
 */
module BackupProtocol {
  import opened Options
  import Crc32
  import Text

  type Bytes = seq<bv8>

  datatype Disk = Disk(orig: Option<Bytes>, backup: Option<Bytes>, csum: Option<string>)

  const GONE := Disk(None, None, None)

  /** The text stored as checksum. Nothing is read from an empty file, so its text stays empty. */
  function ChecksumText(content: Bytes): (t: string)
    ensures t == "" <==> content == []
  {
    if content == [] then "" else Text.Print(Crc32.Crc(Crc32.Reg(0), content).bits as nat, 16)
  }

  /** The texts are compared in place of the checksums. */
  lemma TextIsChecksum(a: Bytes, b: Bytes)
    requires a != [] && b != []
    ensures ChecksumText(a) == ChecksumText(b) <==>
      Crc32.Crc(Crc32.Reg(0), a).bits as nat == Crc32.Crc(Crc32.Reg(0), b).bits as nat
  {
    Text.PrintInjective(Crc32.Crc(Crc32.Reg(0), a).bits as nat, Crc32.Crc(Crc32.Reg(0), b).bits as nat, 16);
  }

  /** The text is the checksum as a hexadecimal numeral. */
  lemma ChecksumTextIs(content: Bytes)
    requires content != []
    ensures Text.Numeral(ChecksumText(content), 16)
    ensures Text.Parse(ChecksumText(content), 16) == Crc32.Crc(Crc32.Reg(0), content).bits as nat
  {
    Text.NumeralIff(ChecksumText(content), Crc32.Crc(Crc32.Reg(0), content).bits as nat, 16);
  }

  // ---------- File operations and loss of power ----------

  /**
   Opening a file with O_TRUNC empties it. The backup, the checksum file and, for `CreateOrig`, the
   original are created if they do not exist.
   */
  datatype FileOp =
    | RemoveOrig | RemoveBackup | RemoveCsum
    | CreateOrig
    | TruncOrig | TruncBackup | TruncCsum
    | CopyToOrig(data: Bytes) | CopyToBackup(data: Bytes) | WriteCsum(text: string)
    | WriteOrig(pos: nat, data: Bytes)

  /** Writing at a position, a hole before it reading as zeros. */
  function Overwrite(c: Bytes, pos: nat, data: Bytes): Bytes {
    if data == [] then c
    else
      (if pos <= |c| then c[..pos] else c + Crc32.Zeros(pos - |c|))
      + data
      + (if pos + |data| <= |c| then c[pos + |data|..] else [])
  }

  /** Writing to a plain file, byte by byte: the new data in its place, the old content elsewhere. */
  function PlainWrite(c: Bytes, pos: nat, data: Bytes): Bytes {
    var end := pos + |data|;
    seq(if data != [] && end > |c| then end else |c|,
        i requires 0 <= i => if pos <= i < end then data[i - pos] else if i < |c| then c[i] else 0)
  }

  lemma OverwriteIs(c: Bytes, pos: nat, data: Bytes)
    ensures Overwrite(c, pos, data) == PlainWrite(c, pos, data)
  {
  }

  function Take<T>(s: seq<T>, k: nat): seq<T> {
    if k < |s| then s[..k] else s
  }

  /** The disk after the first `k` bytes of the operation's data have reached it. */
  function Partly(op: FileOp, d: Disk, k: nat): Disk {
    match op
    case CopyToOrig(data) => if d.orig.Some? then d.(orig := Some(d.orig.value + Take(data, k))) else d
    case CopyToBackup(data) => if d.backup.Some? then d.(backup := Some(d.backup.value + Take(data, k))) else d
    case WriteCsum(text) => if d.csum.Some? then d.(csum := Some(d.csum.value + Take(text, k))) else d
    case WriteOrig(pos, data) =>
      if d.orig.Some? then d.(orig := Some(Overwrite(d.orig.value, pos, Take(data, k)))) else d
    case _ => d
  }

  function Apply(op: FileOp, d: Disk): Disk {
    match op
    case RemoveOrig => d.(orig := None)
    case RemoveBackup => d.(backup := None)
    case RemoveCsum => d.(csum := None)
    case CreateOrig => d.(orig := Some([]))
    case TruncOrig => if d.orig.Some? then d.(orig := Some([])) else d
    case TruncBackup => d.(backup := Some([]))
    case TruncCsum => d.(csum := Some(""))
    case CopyToOrig(data) => Partly(op, d, |data|)
    case CopyToBackup(data) => Partly(op, d, |data|)
    case WriteCsum(text) => Partly(op, d, |text|)
    case WriteOrig(_, data) => Partly(op, d, |data|)
  }

  /** A disk that loses power after `left` more operations, `torn` bytes into the next one. */
  datatype World = World(disk: Disk, left: nat, torn: nat, dead: bool)

  function Do(w: World, op: FileOp): World {
    if w.dead then w
    else if w.left == 0 then w.(disk := Partly(op, w.disk, w.torn), dead := true)
    else w.(disk := Apply(op, w.disk), left := w.left - 1)
  }

  function DoAll(w: World, ops: seq<FileOp>): World
    decreases |ops|
  {
    if ops == [] then w else DoAll(Do(w, ops[0]), ops[1..])
  }

  function Run(d: Disk, ops: seq<FileOp>): Disk
    decreases |ops|
  {
    if ops == [] then d else Run(Apply(ops[0], d), ops[1..])
  }

  lemma {:induction false} DoAllConcat(w: World, a: seq<FileOp>, b: seq<FileOp>)
    ensures DoAll(w, a + b) == DoAll(DoAll(w, a), b)
    decreases |a|
  {
    if a == [] {
      assert a + b == b;
    } else {
      assert (a + b)[1..] == a[1..] + b;
      DoAllConcat(Do(w, a[0]), a[1..], b);
    }
  }

  /** Power that outlasts the operations has no effect; otherwise one operation is cut short. */
  lemma {:induction false} PowerLoss(w: World, ops: seq<FileOp>)
    requires !w.dead
    ensures var w' := DoAll(w, ops);
      if w.left < |ops|
      then w'.dead && w'.disk == Partly(ops[w.left], Run(w.disk, ops[..w.left]), w.torn)
      else !w'.dead && w'.disk == Run(w.disk, ops) && w'.left == w.left - |ops| && w'.torn == w.torn
    decreases |ops|
  {
    if ops != [] {
      if w.left == 0 {
        DeadStays(Do(w, ops[0]), ops[1..]);
      } else {
        PowerLoss(Do(w, ops[0]), ops[1..]);
        assert w.left < |ops| ==> ops[..w.left][1..] == ops[1..][..w.left - 1];
      }
    }
  }

  lemma {:induction false} DeadStays(w: World, ops: seq<FileOp>)
    requires w.dead
    ensures DoAll(w, ops) == w
    decreases |ops|
  {
    if ops != [] {
      DeadStays(w, ops[1..]);
    }
  }

  // ---------- Recovery ----------

  /** What the consistency check returns: a file descriptor, 0, or -1. */
  datatype Verdict = Opened | Unchecked | Corrupt

  function Check(d: Disk): Verdict {
    if d.backup.Some? && d.csum.Some? then
      if d.csum.value == "" then Unchecked
      else if d.orig.None? then Corrupt
      else if d.csum.value == ChecksumText(d.backup.value) then Opened
      else if d.csum.value == ChecksumText(d.orig.value) then Opened
      else Corrupt
    else if d.csum.Some? then
      if d.orig.Some? && d.csum.value == ChecksumText(d.orig.value) then Opened else Corrupt
    else if d.backup.Some? then
      if d.orig.Some? && ChecksumText(d.backup.value) == ChecksumText(d.orig.value) then Opened else Corrupt
    else Unchecked
  }

  predicate RollsBack(d: Disk) {
    && d.backup.Some? && d.csum.Some? && d.csum.value != ""
    && d.orig.Some? && d.csum.value == ChecksumText(d.backup.value)
  }

  function CheckOps(d: Disk): seq<FileOp> {
    if Check(d) == Corrupt then [RemoveOrig, RemoveBackup, RemoveCsum]
    else if RollsBack(d) then [TruncOrig, CopyToOrig(d.backup.value)]
    else []
  }

  /** The disk after an undisturbed check. */
  function Checked(d: Disk): Disk {
    Run(d, CheckOps(d))
  }

  lemma RunShort(d: Disk, a: FileOp, b: FileOp, c: FileOp)
    ensures Run(d, []) == d && Run(d, [a]) == Apply(a, d) && Run(d, [a, b]) == Apply(b, Apply(a, d))
    ensures Run(d, [a, b, c]) == Apply(c, Apply(b, Apply(a, d)))
  {
    assert [a][1..] == [] && [a, b][1..] == [b] && [a, b, c][1..] == [b, c] && [b][1..] == [] && [b, c][1..] == [c];
    assert [c][1..] == [];
    var d1 := Apply(a, d);
    var d2 := Apply(b, d1);
    assert Run(d1, [b]) == d2 && Run(d2, [c]) == Apply(c, d2) && Run(d1, [b, c]) == Run(d2, [c]);
  }

  lemma CheckedIs(d: Disk)
    ensures Checked(d) ==
      if Check(d) == Corrupt then GONE else if RollsBack(d) then d.(orig := d.backup) else d
  {
    RunShort(d, RemoveOrig, RemoveBackup, RemoveCsum);
    if d.backup.Some? {
      RunShort(d, TruncOrig, CopyToOrig(d.backup.value), RemoveCsum);
      assert [] + d.backup.value == d.backup.value;
    }
  }

  /** A positive handle stands for an original that agrees with the checksum, or else with the backup. */
  lemma CheckSound(d: Disk)
    ensures Check(d) == Opened ==>
      && Checked(d).orig.Some? && Checked(d).backup == d.backup && Checked(d).csum == d.csum
      && (d.csum.Some? ==> ChecksumText(Checked(d).orig.value) == d.csum.value)
      && (d.csum.None? ==> d.backup.Some?
                           && ChecksumText(Checked(d).orig.value) == ChecksumText(d.backup.value))
    ensures Check(d) == Opened && Checked(d).orig != d.orig ==> Checked(d).orig == d.backup
    ensures Check(d) == Unchecked ==> Checked(d) == d
    ensures Check(d) == Unchecked <==> (d.backup.None? && d.csum.None?) || (d.backup.Some? && d.csum == Some(""))
    ensures Check(d) == Corrupt ==> Checked(d) == GONE
  {
    CheckedIs(d);
  }

  /**
   Running the check again, after it was completed or cut short anywhere, ends with the same disk.
   The verdict is the same, too, except that nothing is left to be called corrupt once the last of
   the three files is gone.
   */
  lemma CheckAgain(w: World)
    requires !w.dead
    ensures var d, d' := w.disk, DoAll(w, CheckOps(w.disk)).disk;
      && Checked(d') == Checked(d)
      && (Check(d') == Check(d) || (Check(d) == Corrupt && d'.backup.None? && d'.csum.None?))
  {
    var d, ops := w.disk, CheckOps(w.disk);
    PowerLoss(w, ops);
    CheckedIs(d);
    if Check(d) == Corrupt {
      assert ops[..0] == [] && ops[..1] == [RemoveOrig] && ops[..2] == [RemoveOrig, RemoveBackup];
      RunShort(d, RemoveOrig, RemoveBackup, RemoveCsum);
    } else if RollsBack(d) {
      assert ops[..0] == [] && ops[..1] == [TruncOrig];
      RunShort(d, TruncOrig, CopyToOrig(d.backup.value), RemoveCsum);
    }
    CheckedIs(DoAll(w, ops).disk);
  }

  // ---------- Sessions ----------

  /** Checksum, then backup, with an empty backup file in place before the checksum file exists. */
  function BackupOps(d: Disk): seq<FileOp>
    requires d.orig.Some?
  {
    (if d.backup.None? then [TruncBackup] else [])
    + [TruncCsum, WriteCsum(ChecksumText(d.orig.value)), TruncBackup, CopyToBackup(d.orig.value)]
  }

  /** The record kept for an open file. */
  datatype Handle = Handle(pos: nat, backupCreated: bool)

  datatype Machine = Machine(disk: Disk, handle: Option<Handle>)

  datatype Event = Open(default: Option<Bytes>) | Seek(pos: nat) | Write(data: Bytes) | Close

  /** Opening checks the files; a missing original is created and filled with default data. */
  function OpenOps(d: Disk, default: Option<Bytes>): seq<FileOp> {
    if Check(d) == Unchecked && d.orig.None? then
      [CreateOrig] + if default.Some? then [CopyToOrig(default.value)] else []
    else CheckOps(d)
  }

  function WriteOps(d: Disk, h: Handle, data: Bytes): seq<FileOp>
    requires d.orig.Some?
  {
    (if h.backupCreated then [] else BackupOps(d)) + [WriteOrig(h.pos, data)]
  }

  const CLOSE_OPS := [RemoveBackup, RemoveCsum]

  /** Events that make sense: opening without, and everything else with, an open file. */
  predicate Enabled(m: Machine, e: Event) {
    match e
    case Open(_) => m.handle.None?
    case _ => m.handle.Some? && m.disk.orig.Some?
  }

  function EventOps(m: Machine, e: Event): seq<FileOp>
    requires Enabled(m, e)
  {
    match e
    case Open(default) => OpenOps(m.disk, default)
    case Seek(_) => []
    case Write(data) => WriteOps(m.disk, m.handle.value, data)
    case Close => CLOSE_OPS
  }

  function NextHandle(m: Machine, e: Event): Option<Handle>
    requires Enabled(m, e)
  {
    match e
    case Open(_) => if Check(m.disk) == Corrupt then None else Some(Handle(0, false))
    case Seek(pos) => Some(m.handle.value.(pos := pos))
    case Write(data) => Some(Handle(m.handle.value.pos + |data|, true))
    case Close => None
  }

  /** Power stays on during an event, or is lost `left` file operations and `torn` bytes into it. */
  datatype Power = Stays | Lost(left: nat, torn: nat)

  function Step(m: Machine, e: Event, power: Power): Machine
    requires Enabled(m, e)
  {
    match power
    case Stays => Machine(Run(m.disk, EventOps(m, e)), NextHandle(m, e))
    case Lost(left, torn) => Machine(DoAll(World(m.disk, left, torn, false), EventOps(m, e)).disk, None)
  }

  // ---------- The specification: a file changed by whole sessions ----------

  /** No proper first part of the content could be taken for the whole of it by its checksum text. */
  ghost predicate Distinguishable(a: Bytes) {
    forall n {:trigger a[..n]} | 0 < n < |a| :: !(ChecksumText(a[..n]) <= ChecksumText(a))
  }

  /** No proper first part of the content has the checksum text of the whole. */
  ghost predicate CutApart(a: Bytes) {
    forall n {:trigger a[..n]} | 0 < n < |a| :: ChecksumText(a[..n]) != ChecksumText(a)
  }

  /**
   Between sessions the content is `c`; within one it was `pre`, and to the writer it is `cur` with an
   offset of `pos`, as in a plain file; `Ended` makes no claim any more.
   */
  datatype Spec = Rest(c: Bytes) | InSession(pre: Bytes, cur: Bytes, pos: nat) | Ended

  /** The moments at which a loss of power makes the next check give the file up. */
  predicate InWindow(m: Machine, e: Event, left: nat, torn: nat)
    requires Enabled(m, e)
  {
    match e
    case Write(_) =>
      && !m.handle.value.backupCreated
      && var first := if m.disk.backup.None? then 1 else 0;
      // an empty backup file, and no checksum file yet
      || (m.disk.backup.None? && m.disk.csum.None? && left == 1)
      // part of the checksum text
      || (left == first + 1 && 0 < torn < |ChecksumText(m.disk.orig.value)|)
    case Close =>
      // no backup file any more, and still the checksum of other content
      left == 1 && m.disk.csum.Some? && m.disk.csum.value != ChecksumText(m.disk.orig.value)
    case _ => false
  }

  ghost predicate SpecStep(s: Spec, m: Machine, e: Event, power: Power, s': Spec)
    requires Enabled(m, e)
  {
    match s
    case Ended => s' == Ended
    case Rest(c) =>
      && e.Open?
      && if !Distinguishable(c) then s' == Ended
         else s' == if power.Stays? then InSession(c, c, 0) else Rest(c)
    case InSession(pre, cur, pos) =>
      && !e.Open?
      && match power
         case Stays => s' == (
             match e
             case Seek(p) => InSession(pre, cur, p)
             case Write(data) => InSession(pre, PlainWrite(cur, pos, data), pos + |data|)
             case _ => Rest(cur))
         case Lost(left, torn) =>
           || (s' == Ended && InWindow(m, e, left, torn))
           || (s' == Rest(pre) && !InWindow(m, e, left, torn))
           || (s' == Rest(cur) && e.Close? && left >= 1 && !InWindow(m, e, left, torn))
  }

  ghost predicate AtRest(d: Disk, a: Bytes) {
    && a != [] && d.orig == Some(a)
    && (d.backup.Some? ==> d.backup.value <= a)
    && (d.csum.Some? ==> d.csum.value == "" || d.csum.value == ChecksumText(a))
    && (d.backup.Some? && d.csum.None? ==> d.backup.value == a)
    && (d.backup.None? && d.csum.Some? ==> d.csum.value == ChecksumText(a))
  }

  /** The next check leaves exactly `c`. */
  ghost predicate Exposes(d: Disk, c: Bytes) {
    Check(d) != Corrupt && AtRest(Checked(d), c)
  }

  ghost predicate Agrees(m: Machine, s: Spec) {
    match s
    case Ended => true
    case Rest(c) => m.handle.None? && Exposes(m.disk, c)
    case InSession(pre, cur, pos) =>
      && m.handle.Some? && m.handle.value.pos == pos && pre != [] && Distinguishable(pre)
      && if m.handle.value.backupCreated
         then m.disk == Disk(Some(cur), Some(pre), Some(ChecksumText(pre))) && |pre| <= |cur|
         else cur == pre && AtRest(m.disk, pre)
  }

  // ---------- Steps ----------

  lemma PrefixText(a: Bytes, x: Bytes)
    requires Distinguishable(a) && x <= a && x != [] && ChecksumText(x) <= ChecksumText(a)
    ensures x == a
  {
    assert x == a[..|x|];
  }

  /** A disk at rest passes the check unchanged. */
  lemma RestPasses(d: Disk, a: Bytes)
    requires AtRest(d, a) && Distinguishable(a)
    ensures Check(d) != Corrupt && Checked(d) == d && Exposes(d, a)
  {
    CheckedIs(d);
    if d.backup.Some? && d.csum.Some? && d.csum.value != "" && ChecksumText(d.backup.value) == d.csum.value {
      PrefixText(a, d.backup.value);
    }
  }

  /** Intact backup and matching checksum: whatever became of the original, the check restores it. */
  lemma BackupRestores(d: Disk, pre: Bytes)
    requires d.orig.Some? && d.backup == Some(pre) && d.csum == Some(ChecksumText(pre)) && pre != []
    ensures Exposes(d, pre)
  {
    CheckedIs(d);
  }

  /** The operations of taking a backup of `a`, in either form. */
  function CopyOps(a: Bytes, data: Bytes, pos: nat): seq<FileOp> {
    [TruncCsum, WriteCsum(ChecksumText(a)), TruncBackup, CopyToBackup(a), WriteOrig(pos, data)]
  }

  /** The disks between the operations of a first write, an optional placeholder already in place. */
  function CopyState(d: Disk, a: Bytes, data: Bytes, pos: nat, n: nat): Disk {
    if n == 0 then d
    else if n == 1 then d.(csum := Some(""))
    else if n == 2 then d.(csum := Some(ChecksumText(a)))
    else if n == 3 then d.(csum := Some(ChecksumText(a)), backup := Some([]))
    else if n == 4 then d.(csum := Some(ChecksumText(a)), backup := Some(a))
    else Disk(Some(Overwrite(a, pos, data)), Some(a), Some(ChecksumText(a)))
  }

  lemma CopyStep(d: Disk, a: Bytes, data: Bytes, pos: nat, n: nat)
    requires d.orig == Some(a) && n < 5
    ensures Apply(CopyOps(a, data, pos)[n], CopyState(d, a, data, pos, n)) == CopyState(d, a, data, pos, n + 1)
  {
    hide ChecksumText, Overwrite;
    assert "" + ChecksumText(a) == ChecksumText(a) && [] + a == a;
  }

  lemma {:induction false} CopyStates(d: Disk, a: Bytes, data: Bytes, pos: nat, n: nat)
    requires d.orig == Some(a) && n <= 5
    ensures Run(d, CopyOps(a, data, pos)[..n]) == CopyState(d, a, data, pos, n)
  {
    hide Run, Apply, CopyState;
    RunPrefix(d, CopyOps(a, data, pos), 0);
    if n > 0 {
      CopyStates(d, a, data, pos, n - 1);
      CopyStep(d, a, data, pos, n - 1);
      RunPrefix(d, CopyOps(a, data, pos), n - 1);
    } else {
      assert CopyState(d, a, data, pos, 0) == d by { CopyStart(d, a, data, pos); }
    }
  }

  lemma CopyStart(d: Disk, a: Bytes, data: Bytes, pos: nat)
    ensures CopyState(d, a, data, pos, 0) == d
  {
  }

  lemma {:induction false} RunPrefix(d: Disk, ops: seq<FileOp>, n: nat)
    requires n < |ops|
    ensures Run(d, ops[..n + 1]) == Apply(ops[n], Run(d, ops[..n]))
    ensures Run(d, ops[..0]) == d
    decreases n
  {
    if n > 0 {
      RunPrefix(Apply(ops[0], d), ops[1..], n - 1);
      assert ops[..n + 1][1..] == ops[1..][..n] && ops[..n][1..] == ops[1..][..n - 1];
    } else {
      assert ops[..1][1..] == [];
    }
  }

  lemma OverwriteGrows(c: Bytes, pos: nat, data: Bytes)
    ensures |Overwrite(c, pos, data)| >= |c|
  {
  }

  // ---------- Writing with power on ----------

  /** What the first write of a session leaves, whatever files it found. */
  lemma FirstWrite(m: Machine, data: Bytes)
    requires m.handle.Some? && m.disk.orig.Some? && !m.handle.value.backupCreated
    ensures var a, pos := m.disk.orig.value, m.handle.value.pos;
      Step(m, Write(data), Stays)
        == Machine(Disk(Some(Overwrite(a, pos, data)), Some(a), Some(ChecksumText(a))), Some(Handle(pos + |data|, true)))
  {
    hide ChecksumText, Overwrite;
    var a, h := m.disk.orig.value, m.handle.value;
    var ops, copy := WriteOps(m.disk, h, data), CopyOps(a, data, h.pos);
    WriteOpsAre(m.disk, h, data);
    var first := if m.disk.backup.None? then 1 else 0;
    RunFrom(m.disk, ops, first, |ops|);
    CopyStates(if first == 1 then m.disk.(backup := Some([])) else m.disk, a, data, h.pos, 5);
    assert ops[first..] == copy && copy[..5] == copy;
  }

  lemma LaterWrite(m: Machine, data: Bytes)
    requires m.handle.Some? && m.disk.orig.Some? && m.handle.value.backupCreated
    ensures var a, pos := m.disk.orig.value, m.handle.value.pos;
      Step(m, Write(data), Stays)
        == Machine(m.disk.(orig := Some(Overwrite(a, pos, data))), Some(Handle(pos + |data|, true)))
  {
    var ops := WriteOps(m.disk, m.handle.value, data);
    assert ops == [WriteOrig(m.handle.value.pos, data)];
    RunShort(m.disk, ops[0], RemoveOrig, RemoveOrig);
  }

  lemma OverwriteTwice(c: Bytes, pos: nat, a: Bytes, b: Bytes)
    ensures Overwrite(Overwrite(c, pos, a), pos + |a|, b) == Overwrite(c, pos, a + b)
  {
    OverwriteIs(c, pos, a);
    OverwriteIs(PlainWrite(c, pos, a), pos + |a|, b);
    OverwriteIs(c, pos, a + b);
    hide Overwrite;
    if a == [] {
      assert a + b == b && PlainWrite(c, pos, a) == c;
    } else if b == [] {
      assert a + b == a && PlainWrite(PlainWrite(c, pos, a), pos + |a|, b) == PlainWrite(c, pos, a);
    } else {
      assert |PlainWrite(PlainWrite(c, pos, a), pos + |a|, b)| == |PlainWrite(c, pos, a + b)|;
    }
  }

  /** Two writes in a row are one write of both, from any position, also if the first takes the backup. */
  lemma WritesJoin(m: Machine, a: Bytes, b: Bytes)
    requires m.handle.Some? && m.disk.orig.Some?
    ensures var m1 := Step(m, Write(a), Stays);
      Enabled(m1, Write(b)) && Step(m1, Write(b), Stays) == Step(m, Write(a + b), Stays)
  {
    OverwriteTwice(m.disk.orig.value, m.handle.value.pos, a, b);
    if m.handle.value.backupCreated {
      LaterWrite(m, a);
      LaterWrite(m, a + b);
    } else {
      FirstWrite(m, a);
      FirstWrite(m, a + b);
    }
    var m1 := Step(m, Write(a), Stays);
    LaterWrite(m1, b);
    hide Step, Overwrite;
  }

  predicate SeekOrWrite(e: Event) {
    e.Seek? || e.Write?
  }

  function PoweredRun(m: Machine, es: seq<Event>): (r: Machine)
    requires m.handle.Some? && m.disk.orig.Some? && forall e | e in es :: SeekOrWrite(e)
    ensures r.handle.Some? && r.disk.orig.Some?
  {
    if es == [] then m
    else
      var r := PoweredRun(m, es[..|es| - 1]);
      var e := es[|es| - 1];
      OneWriteOrSeek(r, e);
      Step(r, e, Stays)
  }

  /** Content and offset of a plain file after the same calls. */
  function PlainRun(c: Bytes, pos: nat, es: seq<Event>): (Bytes, nat) {
    if es == [] then (c, pos)
    else
      var (c', pos') := PlainRun(c, pos, es[..|es| - 1]);
      match es[|es| - 1]
      case Seek(p) => (c', p)
      case Write(data) => (PlainWrite(c', pos', data), pos' + |data|)
      case _ => (c', pos')
  }

  lemma OneWriteOrSeek(m: Machine, e: Event)
    requires m.handle.Some? && m.disk.orig.Some? && SeekOrWrite(e)
    ensures Enabled(m, e)
    ensures var m', a, pos := Step(m, e, Stays), m.disk.orig.value, m.handle.value.pos;
      && m'.handle.Some?
      && m'.disk.orig == Some(if e.Write? then PlainWrite(a, pos, e.data) else a)
      && m'.handle.value.pos == if e.Write? then pos + |e.data| else e.pos
  {
    if e.Write? {
      OverwriteIs(m.disk.orig.value, m.handle.value.pos, e.data);
      if m.handle.value.backupCreated {
        LaterWrite(m, e.data);
      } else {
        FirstWrite(m, e.data);
      }
      hide Step, Overwrite, PlainWrite;
    }
  }

  /** Any seeks and writes of a session leave the content and offset of a plain file, for every file. */
  lemma {:induction false} SessionIsPlain(m: Machine, es: seq<Event>)
    requires m.handle.Some? && m.disk.orig.Some? && forall e | e in es :: SeekOrWrite(e)
    ensures var r := PoweredRun(m, es);
      (r.disk.orig.value, r.handle.value.pos) == PlainRun(m.disk.orig.value, m.handle.value.pos, es)
    decreases |es|
  {
    hide Step, PlainWrite;
    if es != [] {
      var n := |es| - 1;
      SessionIsPlain(m, es[..n]);
      OneWriteOrSeek(PoweredRun(m, es[..n]), es[n]);
    }
  }

  /** A file that is created when opened has its default data, and its first write takes a backup of that. */
  lemma CreatedSession(d: Disk, default: Option<Bytes>, data: Bytes)
    requires d.orig.None? && Check(d) == Unchecked
    ensures var x := if default.Some? then default.value else [];
      var m := Step(Machine(d, None), Open(default), Stays);
      && m.disk.orig == Some(x) && m.handle.Some?
      && Step(m, Write(data), Stays).disk == Disk(Some(PlainWrite(x, 0, data)), Some(x), Some(ChecksumText(x)))
  {
    var x := if default.Some? then default.value else [];
    var ops := OpenOps(d, default);
    assert ops == [CreateOrig] + if default.Some? then [CopyToOrig(default.value)] else [];
    RunShort(d, CreateOrig, CopyToOrig(x), RemoveOrig);
    assert [] + x == x;
    var m := Step(Machine(d, None), Open(default), Stays);
    assert m == Machine(d.(orig := Some(x)), Some(Handle(0, false)));
    FirstWrite(m, data);
    OverwriteIs(x, 0, data);
  }

  // ---------- Loss of power while writing ----------

  /** Part `k` of the way into operation `n` of a first write that found its backup file in place. */
  lemma CopyCut(d: Disk, a: Bytes, data: Bytes, pos: nat, n: nat, k: nat)
    requires d.orig == Some(a) && a != [] && n < 5 && d.backup.Some? && d.backup.value <= a
    requires Distinguishable(a) || (CutApart(a) && d == Disk(Some(a), Some([]), None))
    requires n == 0 ==> AtRest(d, a) || d == Disk(Some(a), Some([]), None)
    ensures var d' := Partly(CopyOps(a, data, pos)[n], CopyState(d, a, data, pos, n), k);
      if (n == 0 && d.backup == Some([]) && d.csum == None) || (n == 1 && 0 < k < |ChecksumText(a)|)
      then Check(d') == Corrupt
      else Exposes(d', a)
  {
    var d' := Partly(CopyOps(a, data, pos)[n], CopyState(d, a, data, pos, n), k);
    CheckedIs(d');
    if n == 0 {
      if AtRest(d, a) {
        RestPasses(d, a);
      }
    } else if n == 1 {
      var t := Take(ChecksumText(a), k);
      assert d' == Disk(Some(a), d.backup, Some(t)) by { assert "" + t == t; }
      assert t <= ChecksumText(a);
      if t != "" && t == ChecksumText(d.backup.value) {
        PrefixText(a, d.backup.value);
      }
    } else if n == 2 {
      if ChecksumText(a) == ChecksumText(d.backup.value) {
        PrefixText(a, d.backup.value);
      }
    } else if n == 3 {
      var x := Take(a, k);
      assert d' == Disk(Some(a), Some(x), Some(ChecksumText(a))) by { assert [] + x == x; }
      if ChecksumText(a) == ChecksumText(x) {
        assert x == a[..|x|];
      }
    } else {
      BackupRestores(d', a);
    }
  }

  lemma WriteOpsAre(d: Disk, h: Handle, data: Bytes)
    requires d.orig.Some? && !h.backupCreated
    ensures var copy := CopyOps(d.orig.value, data, h.pos);
      WriteOps(d, h, data) == if d.backup.None? then [TruncBackup] + copy else copy
  {
  }

  /** A first write cut short: the old content, or one of the two windows. */
  lemma FirstWriteCut(m: Machine, data: Bytes, left: nat, torn: nat)
    requires m.handle.Some? && !m.handle.value.backupCreated
    requires m.disk.orig.Some? && AtRest(m.disk, m.disk.orig.value)
    requires var a := m.disk.orig.value;
      Distinguishable(a) || (CutApart(a) && m.disk == Disk(Some(a), None, None))
    ensures var d' := Step(m, Write(data), Lost(left, torn)).disk;
      if InWindow(m, Write(data), left, torn) then Check(d') == Corrupt else Exposes(d', m.disk.orig.value)
  {
    hide ChecksumText, Overwrite;
    var d, a, pos := m.disk, m.disk.orig.value, m.handle.value.pos;
    var copy, ops := CopyOps(a, data, pos), WriteOps(d, m.handle.value, data);
    WriteOpsAre(d, m.handle.value, data);
    PowerLoss(World(d, left, torn, false), ops);
    var first := if d.backup.None? then 1 else 0;
    var d1 := if d.backup.None? then d.(backup := Some([])) else d;
    if left < first {
      assert ops[..0] == [];
      CheckedIs(d);
      if Distinguishable(a) {
        RestPasses(d, a);
      }
    } else {
      RunFrom(d, ops, first, left);
      var n := left - first;
      if n < 5 {
        CopyStates(d1, a, data, pos, n);
        assert ops[left] == copy[n];
        CopyCut(d1, a, data, pos, n, torn);
      } else {
        CopyStates(d1, a, data, pos, 5);
        assert copy[..5] == copy;
        BackupRestores(Run(d, ops), a);
      }
    }
  }

  /** Running past the placeholder operation, if there is one. */
  lemma RunFrom(d: Disk, ops: seq<FileOp>, first: nat, left: nat)
    requires first <= 1 && first <= |ops| && (first == 1 ==> ops[0] == TruncBackup) && first <= left
    ensures var d1 := if first == 1 then d.(backup := Some([])) else d;
      && (left <= |ops| ==> Run(d, ops[..left]) == Run(d1, ops[first..][..left - first]))
      && Run(d, ops) == Run(d1, ops[first..])
  {
    if first == 1 && left <= |ops| {
      assert ops[..left][1..] == ops[1..][..left - 1];
    } else if first == 0 {
      assert ops[0..] == ops;
    }
  }

  /** A later write cut short: the backup is complete, so the old content comes back. */
  lemma LaterWriteCut(m: Machine, data: Bytes, pre: Bytes, left: nat, torn: nat)
    requires m.handle.Some? && m.handle.value.backupCreated && pre != []
    requires m.disk.orig.Some? && m.disk.backup == Some(pre) && m.disk.csum == Some(ChecksumText(pre))
    ensures Exposes(Step(m, Write(data), Lost(left, torn)).disk, pre)
  {
    var ops := WriteOps(m.disk, m.handle.value, data);
    assert ops == [WriteOrig(m.handle.value.pos, data)];
    PowerLoss(World(m.disk, left, torn, false), ops);
    assert ops[..0] == [] && ops[1..] == [];
    BackupRestores(Step(m, Write(data), Lost(left, torn)).disk, pre);
  }

  // ---------- Loss of power while closing ----------

  lemma CloseStates(d: Disk)
    ensures Run(d, CLOSE_OPS) == d.(backup := None, csum := None)
    ensures Run(d, CLOSE_OPS[..0]) == d && Run(d, CLOSE_OPS[..1]) == d.(backup := None)
  {
    RunPrefix(d, CLOSE_OPS, 0);
    RunPrefix(d, CLOSE_OPS, 1);
    assert CLOSE_OPS[..2] == CLOSE_OPS;
  }

  /** Between the two removes only the checksum is left: it fits the content, or the file is given up. */
  lemma CloseCut(m: Machine, pre: Bytes, cur: Bytes, pos: nat, left: nat, torn: nat)
    requires Agrees(m, InSession(pre, cur, pos)) && m.disk.orig.Some?
    ensures var d' := Step(m, Close, Lost(left, torn)).disk;
      if InWindow(m, Close, left, torn) then Check(d') == Corrupt
      else Exposes(d', if left == 0 then pre else cur)
  {
    var d := m.disk;
    PowerLoss(World(d, left, torn, false), CLOSE_OPS);
    CloseStates(d);
    var d' := Step(m, Close, Lost(left, torn)).disk;
    CheckedIs(d');
    if left == 0 {
      if m.handle.value.backupCreated {
        BackupRestores(d', pre);
      } else {
        RestPasses(d, pre);
      }
    }
  }

  // ---------- One event ----------

  /** A check that does not give the file up ends at rest, also when it is cut short and repeated. */
  lemma OpenStep(m: Machine, default: Option<Bytes>, c: Bytes, power: Power)
    requires m.handle.None? && Exposes(m.disk, c)
    ensures var m' := Step(m, Open(default), power);
      if power.Stays? then m' == Machine(Checked(m.disk), Some(Handle(0, false))) && AtRest(m'.disk, c)
      else m'.handle.None? && Exposes(m'.disk, c)
  {
    CheckedIs(m.disk);
    assert OpenOps(m.disk, default) == CheckOps(m.disk);
    if power.Lost? {
      CheckAgain(World(m.disk, power.left, power.torn, false));
    }
  }

  /** Every event of the protocol is a step of the specification. */
  lemma Refines(m: Machine, s: Spec, e: Event, power: Power) returns (s': Spec)
    requires Enabled(m, e) && Agrees(m, s)
    ensures SpecStep(s, m, e, power, s') && Agrees(Step(m, e, power), s')
    ensures s' == Ended && !s.Ended? && !e.Open? ==> Check(Step(m, e, power).disk) == Corrupt
  {
    match s
    case Ended => s' := Ended;
    case Rest(c) =>
      OpenStep(m, e.default, c, power);
      s' := if !Distinguishable(c) then Ended else if power.Stays? then InSession(c, c, 0) else Rest(c);
    case InSession(pre, cur, pos) =>
      match power
      case Stays => s' := StepPowered(m, pre, cur, pos, e);
      case Lost(left, torn) => s' := StepLost(m, pre, cur, pos, e, left, torn);
  }

  lemma StepPowered(m: Machine, pre: Bytes, cur: Bytes, pos: nat, e: Event) returns (s': Spec)
    requires Enabled(m, e) && Agrees(m, InSession(pre, cur, pos)) && !e.Open?
    ensures SpecStep(InSession(pre, cur, pos), m, e, Stays, s') && Agrees(Step(m, e, Stays), s') && s' != Ended
  {
    var h := m.handle.value;
    match e
    case Seek(p) =>
      s' := InSession(pre, cur, p);
    case Write(data) =>
      s' := InSession(pre, PlainWrite(cur, pos, data), pos + |data|);
      OverwriteIs(cur, pos, data);
      hide Overwrite, PlainWrite;
      OverwriteGrows(cur, h.pos, data);
      if h.backupCreated {
        LaterWrite(m, data);
      } else {
        FirstWrite(m, data);
      }
      hide Step;
    case Close =>
      CloseStates(m.disk);
      CheckedIs(m.disk.(backup := None, csum := None));
      s' := Rest(cur);
  }

  lemma StepLost(m: Machine, pre: Bytes, cur: Bytes, pos: nat, e: Event, left: nat, torn: nat) returns (s': Spec)
    requires Enabled(m, e) && Agrees(m, InSession(pre, cur, pos)) && !e.Open?
    ensures SpecStep(InSession(pre, cur, pos), m, e, Lost(left, torn), s') && Agrees(Step(m, e, Lost(left, torn)), s')
    ensures s' == Ended ==> Check(Step(m, e, Lost(left, torn)).disk) == Corrupt
  {
    match e
    case Seek(_) =>
      s' := Rest(pre);
      if m.handle.value.backupCreated {
        BackupRestores(m.disk, pre);
      } else {
        RestPasses(m.disk, pre);
      }
    case Write(data) =>
      if m.handle.value.backupCreated {
        LaterWriteCut(m, data, pre, left, torn);
      } else {
        FirstWriteCut(m, data, left, torn);
      }
      s' := if InWindow(m, e, left, torn) then Ended else Rest(pre);
    case Close =>
      CloseCut(m, pre, cur, pos, left, torn);
      s' := if InWindow(m, e, left, torn) then Ended else if left == 0 then Rest(pre) else Rest(cur);
  }

  // ---------- Runs ----------

  /** A run: one more machine state than events. */
  ghost predicate IsRun(ms: seq<Machine>, es: seq<Event>, powers: seq<Power>) {
    && |ms| == |es| + 1 && |powers| == |es|
    && forall i | 0 <= i < |es| :: Enabled(ms[i], es[i]) && ms[i + 1] == Step(ms[i], es[i], powers[i])
  }

  ghost predicate Follows(ss: seq<Spec>, ms: seq<Machine>, es: seq<Event>, powers: seq<Power>)
    requires IsRun(ms, es, powers)
  {
    && |ss| == |ms|
    && (forall i | 0 <= i < |ms| :: Agrees(ms[i], ss[i]))
    && (forall i | 0 <= i < |es| :: SpecStep(ss[i], ms[i], es[i], powers[i], ss[i + 1]))
  }

  lemma StartAgrees(c: Bytes)
    requires c != []
    ensures Agrees(Machine(Disk(Some(c), None, None), None), Rest(c))
  {
    CheckedIs(Disk(Some(c), None, None));
  }

  /**
   Safety over whole runs: from a nonempty file without backup and checksum, every sequence of
   opens, seeks, writes and closes, with power lost anywhere any number of times, also during
   recovery, behaves like a file that changes by whole sessions, until it is given up in one of the
   windows or opened with content that is not distinguishable from its first parts.
   */
  lemma {:induction false} RunsAreAtomic(ms: seq<Machine>, es: seq<Event>, powers: seq<Power>, c: Bytes)
    returns (ss: seq<Spec>)
    requires IsRun(ms, es, powers) && c != [] && ms[0] == Machine(Disk(Some(c), None, None), None)
    ensures Follows(ss, ms, es, powers) && ss[0] == Rest(c)
    decreases |es|
  {
    hide Step, SpecStep, Agrees, Enabled;
    if es == [] {
      ss := [Rest(c)];
      StartAgrees(c);
    } else {
      var n := |es| - 1;
      var ms', es', powers' := ms[..n + 1], es[..n], powers[..n];
      assert IsRun(ms', es', powers');
      var ss' := RunsAreAtomic(ms', es', powers', c);
      assert Agrees(ms'[n], ss'[n]);
      var s := Refines(ms[n], ss'[n], es[n], powers[n]);
      ss := ss' + [s];
      forall i | 0 <= i < |es|
        ensures SpecStep(ss[i], ms[i], es[i], powers[i], ss[i + 1])
      {
        if i < n {
          assert SpecStep(ss'[i], ms'[i], es'[i], powers'[i], ss'[i + 1]);
        }
      }
    }
  }

  /** The next undisturbed open after a loss of power: old content, complete new content, or nothing. */
  lemma ReopenAfterLoss(m: Machine, pre: Bytes, cur: Bytes, pos: nat, e: Event, left: nat, torn: nat,
                        default: Option<Bytes>)
    requires Enabled(m, e) && Agrees(m, InSession(pre, cur, pos)) && !e.Open?
    ensures var r := Step(Step(m, e, Lost(left, torn)), Open(default), Stays);
      if InWindow(m, e, left, torn) then r == Machine(GONE, None)
      else
        && r.handle == Some(Handle(0, false))
        && (r.disk.orig == Some(pre) || (e.Close? && left >= 1 && r.disk.orig == Some(cur)))
  {
    var s' := StepLost(m, pre, cur, pos, e, left, torn);
    var m1 := Step(m, e, Lost(left, torn));
    CheckedIs(m1.disk);
    if s'.Rest? {
      OpenStep(m1, default, s'.c, Stays);
    }
  }

  // ---------- Where the protection ends ----------

  /** A new session on a file without backup and checksum. */
  function FreshSession(a: Bytes, pos: nat): Machine {
    Machine(Disk(Some(a), None, None), Some(Handle(pos, false)))
  }

  /** The content found by the next check after power was lost during the first write of a session. */
  function FoundAfter(a: Bytes, pos: nat, data: Bytes, left: nat, torn: nat): Option<Bytes> {
    Checked(Step(FreshSession(a, pos), Write(data), Lost(left, torn)).disk).orig
  }

  /** An empty file has an empty checksum text, and a torn first write stays visible. */
  lemma EmptyFileTorn(data: Bytes, k: nat)
    requires k < |data|
    ensures FoundAfter([], 0, data, 5, k) == Some(data[..k])
  {
    var m := FreshSession([], 0);
    var d1 := m.disk.(backup := Some([]));
    var ops := WriteOps(m.disk, m.handle.value, data);
    WriteOpsAre(m.disk, m.handle.value, data);
    PowerLoss(World(m.disk, 5, k, false), ops);
    RunFrom(m.disk, ops, 1, 5);
    assert ops[1..] == CopyOps([], data, 0);
    CopyStates(d1, [], data, 0, 4);
    CheckedIs(Step(m, Write(data), Lost(5, k)).disk);
    assert [] + data[..k] + [] == data[..k];
  }

  /** A backup cut off after `k` bytes is put in place of an intact original exactly when the texts agree. */
  lemma TornBackup(a: Bytes, data: Bytes, k: nat)
    requires 0 < k < |a|
    ensures FoundAfter(a, 0, data, 4, k) ==
      Some(if ChecksumText(a[..k]) == ChecksumText(a) then a[..k] else a)
  {
    var m := FreshSession(a, 0);
    var d1 := m.disk.(backup := Some([]));
    var ops := WriteOps(m.disk, m.handle.value, data);
    WriteOpsAre(m.disk, m.handle.value, data);
    PowerLoss(World(m.disk, 4, k, false), ops);
    RunFrom(m.disk, ops, 1, 4);
    assert ops[1..] == CopyOps(a, data, 0);
    CopyStates(d1, a, data, 0, 3);
    assert [] + a[..k] == a[..k];
    CheckedIs(Step(m, Write(data), Lost(4, k)).disk);
  }

  /** After a first write cut short anywhere such a file is as before or gone. */
  lemma NonemptyKept(a: Bytes, pos: nat, data: Bytes, left: nat, torn: nat)
    requires a != [] && CutApart(a)
    ensures FoundAfter(a, pos, data, left, torn) in {Some(a), None}
  {
    hide InWindow, WriteOps;
    var m := FreshSession(a, pos);
    FirstWriteCut(m, data, left, torn);
    CheckedIs(Step(m, Write(data), Lost(left, torn)).disk);
  }

  /**
   The files that come back as they were, or not at all, from a first write cut short anywhere are
   exactly the nonempty ones with no proper first part of the same checksum text.
   */
  lemma ProtectedIff(a: Bytes)
    ensures a != [] && CutApart(a) <==>
      forall pos, data, left, torn :: FoundAfter(a, pos, data, left, torn) in {Some(a), None}
  {
    hide FoundAfter;
    if a == [] {
      EmptyFileTorn([1, 2], 1);
      assert [1, 2][..1] == [1 as bv8];
      assert FoundAfter(a, 0, [1, 2], 5, 1) == Some([1]);
    } else if CutApart(a) {
      forall pos, data, left, torn
        ensures FoundAfter(a, pos, data, left, torn) in {Some(a), None}
      {
        NonemptyKept(a, pos, data, left, torn);
      }
    } else {
      var n: nat :| 0 < n < |a| && ChecksumText(a[..n]) == ChecksumText(a);
      TornBackup(a, [], n);
      assert FoundAfter(a, 0, [], 4, n) == Some(a[..n]);
    }
  }

  /** Such files exist: the checksum does not tell zero bytes from fewer zero bytes. */
  lemma ZeroFileTorn(n: nat, data: Bytes, k: nat)
    requires 0 < k < n
    ensures FoundAfter(Crc32.Zeros(n), 0, data, 4, k) == Some(Crc32.Zeros(k)) && !Distinguishable(Crc32.Zeros(n))
  {
    TornBackup(Crc32.Zeros(n), data, k);
    Crc32.ZeroBuffers(n);
    Crc32.ZeroBuffers(k);
    assert Crc32.Zeros(n)[..k] == Crc32.Zeros(k);
  }

  /** What the next check finds after power was lost while a missing file was created. */
  function CreatedAfter(d: Disk, default: Option<Bytes>, left: nat, torn: nat): Option<Bytes>
    requires d.orig.None? && Check(d) == Unchecked
  {
    Checked(Step(Machine(d, None), Open(default), Lost(left, torn)).disk).orig
  }

  lemma CreatedIs(d: Disk, default: Option<Bytes>, left: nat, torn: nat)
    requires d.orig.None? && Check(d) == Unchecked
    ensures CreatedAfter(d, default, left, torn) ==
      if left == 0 then None
      else if default.None? then Some([])
      else Some(if left == 1 then Take(default.value, torn) else default.value)
  {
    var ops := OpenOps(d, default);
    assert ops == [CreateOrig] + if default.Some? then [CopyToOrig(default.value)] else [];
    PowerLoss(World(d, left, torn, false), ops);
    assert ops[..0] == [] && ops[..1] == [CreateOrig];
    var x := if default.Some? then default.value else [];
    RunShort(d, CreateOrig, CopyToOrig(x), RemoveOrig);
    assert [] + x == x && [] + Take(x, torn) == Take(x, torn);
    CheckedIs(Step(Machine(d, None), Open(default), Lost(left, torn)).disk);
  }

  /** A missing file is created whole or not at all exactly if there is no default data to copy. */
  lemma CreationIff(d: Disk, default: Option<Bytes>)
    requires d.orig.None? && Check(d) == Unchecked
    ensures default.None? || default.value == [] <==>
      forall left, torn :: CreatedAfter(d, default, left, torn) in {None, Some(if default.Some? then default.value else [])}
  {
    hide CreatedAfter;
    forall left, torn
      ensures default.None? || default.value == [] ==>
        CreatedAfter(d, default, left, torn) in {None, Some(if default.Some? then default.value else [])}
    {
      CreatedIs(d, default, left, torn);
    }
    CreatedIs(d, default, 1, 0);
    if default.Some? && default.value != [] {
      assert CreatedAfter(d, default, 1, 0) == Some([]);
    }
  }

  // ---------- Runs up to the first close, exactly ----------

  /** A run on a file without backup and checksum in which only the last event may close it. */
  ghost predicate FirstSessions(ms: seq<Machine>, es: seq<Event>, powers: seq<Power>, a: Bytes) {
    && IsRun(ms, es, powers) && ms[0] == Machine(Disk(Some(a), None, None), None)
    && (forall i | 0 <= i < |es| - 1 :: !es[i].Close?)
    && (forall i | 0 <= i < |es| && es[i].Open? :: Check(ms[i].disk) != Corrupt)
  }

  /** Nobody has the file open, and the next check finds neither the old content nor a complete new one. */
  ghost predicate TornAtEnd(ms: seq<Machine>, es: seq<Event>, a: Bytes)
    requires |ms| == |es| + 1
  {
    var n := |es|;
    var found := Checked(ms[n].disk).orig;
    && ms[n].handle.None? && found !in {Some(a), None}
    && !(n > 0 && es[n - 1].Close? && found == ms[n - 1].disk.orig)
  }

  /** The old content is to be found, or a session changes it, or the next check gives the file up. */
  ghost predicate Held(m: Machine, a: Bytes) {
    || Agrees(m, Rest(a))
    || (m.handle.Some? && m.disk.orig.Some? && Agrees(m, InSession(a, m.disk.orig.value, m.handle.value.pos)))
    || (m.handle.None? && Check(m.disk) == Corrupt)
  }

  lemma HeldStep(m: Machine, e: Event, power: Power, a: Bytes)
    requires Held(m, a) && a != [] && Distinguishable(a) && Enabled(m, e)
    requires e.Open? ==> Check(m.disk) != Corrupt
    ensures !e.Close? ==> Held(Step(m, e, power), a)
    ensures var m' := Step(m, e, power); var found := Checked(m'.disk).orig;
      e.Close? && m'.handle.None? ==> found in {Some(a), None, m.disk.orig}
  {
    var m' := Step(m, e, power);
    CheckedIs(m'.disk);
    if e.Open? {
      OpenStep(m, e.default, a, power);
    } else {
      var s' := Refines(m, InSession(a, m.disk.orig.value, m.handle.value.pos), e, power);
    }
  }

  lemma {:induction false} HeldRun(ms: seq<Machine>, es: seq<Event>, powers: seq<Power>, a: Bytes)
    requires FirstSessions(ms, es, powers, a) && a != [] && Distinguishable(a)
    ensures es == [] || !es[|es| - 1].Close? ==> Held(ms[|es|], a)
    ensures !TornAtEnd(ms, es, a)
    decreases |es|
  {
    hide Step, Enabled;
    CheckedIs(ms[|es|].disk);
    if es == [] {
      StartAgrees(a);
    } else {
      var n := |es| - 1;
      HeldRun(ms[..n + 1], es[..n], powers[..n], a);
      HeldStep(ms[n], es[n], powers[n], a);
    }
  }

  lemma OpenUntouched(d: Disk)
    requires d.orig.Some? && Check(d) != Corrupt && !RollsBack(d)
    ensures Step(Machine(d, None), Open(None), Stays) == Machine(d, Some(Handle(0, false)))
  {
  }

  /** One session on the file, cut short at its first write. */
  lemma ShortRun(a: Bytes, data: Bytes, left: nat, torn: nat)
    ensures var ms, es, powers := ShortStates(a, data, left, torn), [Open(None), Write(data)], [Stays, Lost(left, torn)];
      && FirstSessions(ms, es, powers, a)
      && (TornAtEnd(ms, es, a) <==> FoundAfter(a, 0, data, left, torn) !in {Some(a), None})
  {
    hide DoAll, EventOps;
    OpenUntouched(Disk(Some(a), None, None));
  }

  function ShortStates(a: Bytes, data: Bytes, left: nat, torn: nat): seq<Machine> {
    var m := FreshSession(a, 0);
    [Machine(m.disk, None), m, Step(m, Write(data), Lost(left, torn))]
  }

  function CutBackup(a: Bytes, n: nat, text: string): Disk
    requires n <= |a|
  {
    Disk(Some(a), Some(a[..n]), Some(text))
  }

  /** The backup cut off after `n` bytes. */
  lemma BackupCut(a: Bytes, n: nat)
    requires 0 < n < |a|
    ensures Step(FreshSession(a, 0), Write([]), Lost(4, n)) == Machine(CutBackup(a, n, ChecksumText(a)), None)
  {
    hide ChecksumText, Overwrite;
    var m := FreshSession(a, 0);
    var ops := WriteOps(m.disk, m.handle.value, []);
    WriteOpsAre(m.disk, m.handle.value, []);
    PowerLoss(World(m.disk, 4, n, false), ops);
    RunFrom(m.disk, ops, 1, 4);
    assert ops[1..] == CopyOps(a, [], 0);
    CopyStates(m.disk.(backup := Some([])), a, [], 0, 3);
    assert [] + a[..n] == a[..n];
  }

  /** The next first write cut short within the checksum text. */
  lemma TextCut(a: Bytes, n: nat, k: nat)
    requires 0 < n < |a|
    ensures Step(Machine(CutBackup(a, n, ChecksumText(a)), Some(Handle(0, false))), Write([]), Lost(1, k))
         == Machine(CutBackup(a, n, Take(ChecksumText(a), k)), None)
  {
    hide ChecksumText, Overwrite;
    var d, h := CutBackup(a, n, ChecksumText(a)), Handle(0, false);
    var ops := WriteOps(d, h, []);
    WriteOpsAre(d, h, []);
    PowerLoss(World(d, 1, k, false), ops);
    CopyStates(d, a, [], 0, 1);
    assert "" + Take(ChecksumText(a), k) == Take(ChecksumText(a), k);
  }

  lemma CutChecked(a: Bytes, n: nat)
    requires 0 < n < |a| && ChecksumText(a[..n]) != ChecksumText(a)
    ensures Check(CutBackup(a, n, ChecksumText(a))) == Opened && !RollsBack(CutBackup(a, n, ChecksumText(a)))
    ensures Checked(CutBackup(a, n, ChecksumText(a[..n]))).orig == Some(a[..n])
  {
    CheckedIs(CutBackup(a, n, ChecksumText(a[..n])));
  }

  /** Such a file is torn by two sessions, each cut short at its first write. */
  lemma LongRun(a: Bytes, n: nat) returns (ms: seq<Machine>, es: seq<Event>, powers: seq<Power>)
    requires 0 < n < |a| && ChecksumText(a[..n]) <= ChecksumText(a) && ChecksumText(a[..n]) != ChecksumText(a)
    ensures FirstSessions(ms, es, powers, a) && TornAtEnd(ms, es, a)
  {
    var text := ChecksumText(a[..n]);
    assert Take(ChecksumText(a), |text|) == text;
    var m, d, d' := FreshSession(a, 0), CutBackup(a, n, ChecksumText(a)), CutBackup(a, n, text);
    var m3 := Machine(d, Some(Handle(0, false)));
    OpenUntouched(m.disk);
    BackupCut(a, n);
    CutChecked(a, n);
    OpenUntouched(d);
    TextCut(a, n, |text|);
    hide Step, Checked, ChecksumText;
    ms := [Machine(m.disk, None), m, Machine(d, None), m3, Machine(d', None)];
    es := [Open(None), Write([]), Open(None), Write([])];
    powers := [Stays, Lost(4, n), Stays, Lost(1, |text|)];
  }

  /**
   The files that no run tears are exactly the nonempty ones whose checksum text does not begin with
   that of a proper first part: in all their runs up to the first close the next check finds the old
   content, the complete new one, or nothing.
   */
  lemma NeverTornIff(a: Bytes)
    ensures a != [] && Distinguishable(a) <==>
      forall ms, es, powers | FirstSessions(ms, es, powers, a) :: !TornAtEnd(ms, es, a)
  {
    hide TornAtEnd, Step, Enabled;
    if a != [] && Distinguishable(a) {
      forall ms, es, powers | FirstSessions(ms, es, powers, a)
        ensures !TornAtEnd(ms, es, a)
      {
        HeldRun(ms, es, powers, a);
      }
    } else {
      var ms, es, powers := TearingRun(a);
      assert FirstSessions(ms, es, powers, a) && TornAtEnd(ms, es, a);
    }
  }

  lemma TearingRun(a: Bytes) returns (ms: seq<Machine>, es: seq<Event>, powers: seq<Power>)
    requires a == [] || !Distinguishable(a)
    ensures FirstSessions(ms, es, powers, a) && TornAtEnd(ms, es, a)
  {
    hide FirstSessions, TornAtEnd, FoundAfter, ShortStates, ChecksumText;
    if a == [] {
      EmptyFileTorn([1, 2], 1);
      assert [1, 2][..1] == [1 as bv8];
      ShortRun(a, [1, 2], 5, 1);
      ms, es, powers := ShortStates(a, [1, 2], 5, 1), [Open(None), Write([1, 2])], [Stays, Lost(5, 1)];
    } else {
      var n: nat :| 0 < n < |a| && ChecksumText(a[..n]) <= ChecksumText(a);
      if ChecksumText(a[..n]) == ChecksumText(a) {
        TornBackup(a, [], n);
        ShortRun(a, [], 4, n);
        ms, es, powers := ShortStates(a, [], 4, n), [Open(None), Write([])], [Stays, Lost(4, n)];
      } else {
        ms, es, powers := LongRun(a, n);
      }
    }
  }
}
