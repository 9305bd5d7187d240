/**
 The functions that carry out the protocol of module `BackupProtocol` on the files, step by step as
 in src/persistence_client_library_backup_filelist.c and src/persistence_client_library_file.c. Each
 one is proved to perform exactly the file operations planned there, however much power is left.
 */
module BackupFiles {
  import opened Options
  import opened BackupProtocol
  import Crc32
  import Text

  lemma DoAllSnoc(w: World, ops: seq<FileOp>, op: FileOp)
    ensures DoAll(w, ops + [op]) == Do(DoAll(w, ops), op)
  {
    DoAllConcat(w, ops, [op]);
    assert [op][1..] == [];
  }

  lemma OrigUntouched(w: World, op: FileOp)
    requires op.TruncBackup? || op.TruncCsum? || op.WriteCsum?
    ensures Do(w, op).disk.orig == w.disk.orig
  {
  }

  /** One protected file: its three files on disk and the record of its open descriptor. */
  class ProtectedFile {
    var world: World
    var handle: Option<Handle>

    /** What has been done so far, for specifications only. */
    ghost var start: World
    ghost var log: seq<FileOp>

    ghost predicate Valid()
      reads this
    {
      world == DoAll(start, log)
    }

    constructor (disk: Disk, left: nat, torn: nat)
      ensures Valid() && world == World(disk, left, torn, false) && handle == None && log == []
    {
      world, handle := World(disk, left, torn, false), None;
      start, log := World(disk, left, torn, false), [];
    }

    /** Starts counting the file operations anew. */
    ghost method Mark()
      modifies this`start, this`log
      ensures Valid() && start == world && log == []
    {
      start, log := world, [];
    }

    method Perform(op: FileOp)
      requires Valid()
      modifies this`world, this`log
      ensures Valid() && world == Do(old(world), op) && log == old(log) + [op]
    {
      DoAllSnoc(start, log, op);
      world := Do(world, op);
      log := log + [op];
    }

    /**
     Checksum text of the open original. The descriptor is rewound for reading and put back, so the
     text covers the whole content and the position is as before.
     */
    method CalcCrc32Csum() returns (text: string)
      requires handle.Some? && world.disk.orig.Some?
      modifies this`handle
      ensures handle == old(handle)
      ensures text == ChecksumText(world.disk.orig.value)
    {
      var content := world.disk.orig.value;
      var curPos := handle.value.pos;
      text := "";
      if curPos != 0 {
        handle := Some(handle.value.(pos := 0));
      }
      var readSize := |content| - handle.value.pos;
      while readSize > 0
        invariant handle.Some? && handle.value.backupCreated == old(handle.value.backupCreated)
        invariant handle.value.pos in {0, |content|} && readSize == |content| - handle.value.pos
        invariant text == if handle.value.pos == 0 then "" else ChecksumText(content)
        decreases readSize
      {
        var buf := content[handle.value.pos..];
        handle := Some(handle.value.(pos := |content|));
        text := Text.Print(Crc32.Crc(Crc32.Reg(0), buf).bits as nat, 16);
        assert buf == content;
        readSize := |content| - handle.value.pos;
      }
      handle := Some(handle.value.(pos := curPos));
    }

    /** The backup is a copy from the first byte on, whatever the position of the descriptor. */
    method CreateBackup(csumBuf: string)
      requires Valid() && handle.Some? && world.disk.orig.Some?
      requires csumBuf == ChecksumText(world.disk.orig.value)
      modifies this
      ensures Valid() && handle == old(handle) && start == old(start)
      ensures log == old(log) + BackupOps(old(world.disk))
    {
      hide Do, ChecksumText, DoAll;
      ghost var d := world.disk;
      assert BackupOps(d) == (if d.backup.None? then [TruncBackup] else [])
        + [TruncCsum, WriteCsum(csumBuf), TruncBackup, CopyToBackup(d.orig.value)];
      if world.disk.backup == None {
        OrigUntouched(world, TruncBackup);
        Perform(TruncBackup);
      }
      OrigUntouched(world, TruncCsum);
      Perform(TruncCsum);
      OrigUntouched(world, WriteCsum(csumBuf));
      Perform(WriteCsum(csumBuf));
      OrigUntouched(world, TruncBackup);
      Perform(TruncBackup);
      var curPos := handle.value.pos;
      handle := Some(handle.value.(pos := 0));
      FileCopyToBackup();
      handle := Some(handle.value.(pos := curPos));
    }

    /** Copies from the position of the source descriptor, which moves to the end of the file. */
    method FileCopyToBackup()
      requires Valid() && handle.Some? && world.disk.orig.Some?
      modifies this
      ensures Valid() && start == old(start)
      ensures handle.Some? && handle.value.backupCreated == old(handle.value.backupCreated)
      ensures var c, pos := old(world.disk.orig.value), old(handle.value.pos);
        log == old(log) + [CopyToBackup(if pos <= |c| then c[pos..] else [])]
    {
      var c, pos := world.disk.orig.value, handle.value.pos;
      Perform(CopyToBackup(if pos <= |c| then c[pos..] else []));
      handle := Some(handle.value.(pos := if pos <= |c| then |c| else pos));
    }

    /** Empties the original and copies the backup into it. */
    method RecoverFromBackup(backup: Bytes) returns (verdict: Verdict)
      requires Valid()
      modifies this`world, this`log
      ensures Valid()
      ensures verdict == if old(world.disk.orig).Some? then Opened else Corrupt
      ensures log == old(log) + if verdict == Opened then [TruncOrig, CopyToOrig(backup)] else []
    {
      if world.disk.orig.None? {
        return Corrupt;
      }
      Perform(TruncOrig);
      Perform(CopyToOrig(backup));
      return Opened;
    }

    method VerifyConsistency() returns (verdict: Verdict)
      requires Valid()
      modifies this`world, this`log
      ensures Valid()
      ensures verdict == Check(old(world.disk)) && log == old(log) + CheckOps(old(world.disk))
    {
      var orig, backup, csum := world.disk.orig, world.disk.backup, world.disk.csum;
      verdict := Unchecked;
      if backup.Some? && csum.Some? {
        var backCsumBuf, csumBuf := ChecksumText(backup.value), csum.value;
        if |csumBuf| > 0 {
          if csumBuf == backCsumBuf {
            verdict := RecoverFromBackup(backup.value);
          } else if orig.Some? && csumBuf == ChecksumText(orig.value) {
            verdict := Opened;
          } else {
            verdict := Corrupt;
          }
        }
      } else if csum.Some? {
        verdict := if orig.Some? && csum.value == ChecksumText(orig.value) then Opened else Corrupt;
      } else if backup.Some? {
        var backCsumBuf := ChecksumText(backup.value);
        verdict := if orig.Some? && backCsumBuf == ChecksumText(orig.value) then Opened else Corrupt;
      }
      if verdict == Corrupt {
        Perform(RemoveOrig);
        Perform(RemoveBackup);
        Perform(RemoveCsum);
      }
    }

    /** Opens the file for reading and writing; 0 stands for any positive descriptor, -1 for failure. */
    method FileOpen(default: Option<Bytes>) returns (rval: int)
      requires Valid() && handle.None?
      modifies this
      ensures Valid() && start == old(start)
      ensures var m := Machine(old(world.disk), None);
        && log == old(log) + EventOps(m, Open(default))
        && handle == NextHandle(m, Open(default))
        && rval == if handle.Some? then 0 else -1
    {
      var missing := world.disk.orig.None?;
      var verdict := VerifyConsistency();
      if verdict == Corrupt {
        return -1;
      }
      if verdict == Unchecked && missing {
        Perform(CreateOrig);
        if default.Some? {
          Perform(CopyToOrig(default.value));
        }
      }
      handle := Some(Handle(0, false));
      return 0;
    }

    method FileSeek(pos: nat)
      requires handle.Some?
      modifies this`handle
      ensures handle == Some(old(handle.value).(pos := pos))
    {
      handle := Some(handle.value.(pos := pos));
    }

    /** The first write of a session takes the backup before it changes anything. */
    method FileWriteData(data: Bytes) returns (size: nat)
      requires Valid() && handle.Some? && world.disk.orig.Some?
      modifies this
      ensures Valid() && start == old(start) && size == |data|
      ensures var m := Machine(old(world.disk), old(handle));
        log == old(log) + EventOps(m, Write(data)) && handle == NextHandle(m, Write(data))
      ensures handle.Some? && handle.value.pos == old(handle).value.pos + |data|
    {
      hide DoAll, Do, ChecksumText, BackupOps, Overwrite;
      if !handle.value.backupCreated {
        var csumBuf := CalcCrc32Csum();
        CreateBackup(csumBuf);
        handle := Some(handle.value.(backupCreated := true));
      }
      Perform(WriteOrig(handle.value.pos, data));
      handle := Some(handle.value.(pos := handle.value.pos + |data|));
      size := |data|;
    }

    method FileClose()
      requires Valid() && handle.Some?
      modifies this
      ensures Valid() && start == old(start)
      ensures log == old(log) + CLOSE_OPS && handle == None
    {
      Perform(RemoveBackup);
      Perform(RemoveCsum);
      handle := None;
    }
  }

  /**
   One call with the given power: the disk ends as in the protocol's step, and so does the record
   if power stayed on.
   */
  method CallEvent(f: ProtectedFile, e: Event)
    requires f.world.dead == false && Enabled(Machine(f.world.disk, f.handle), e)
    modifies f
    ensures var m, w := Machine(old(f.world.disk), old(f.handle)), old(f.world);
      && f.world.disk == Step(m, e, Lost(w.left, w.torn)).disk
      && (!f.world.dead ==> f.world.disk == Step(m, e, Stays).disk && f.handle == Step(m, e, Stays).handle)
  {
    hide EventOps, NextHandle, DoAll, Run;
    f.Mark();
    ghost var m := Machine(f.world.disk, f.handle);
    PowerLoss(f.world, EventOps(m, e));
    match e
    case Open(default) =>
      assert m == Machine(f.world.disk, None);
      var _ := f.FileOpen(default);
      assert f.log == EventOps(m, Open(default));
    case Seek(pos) =>
      SeekOnly(m, pos);
      f.FileSeek(pos);
    case Write(data) =>
      assert m == Machine(f.world.disk, f.handle);
      var _ := f.FileWriteData(data);
      assert f.log == EventOps(m, Write(data));
    case Close =>
      CloseOnly(m);
      f.FileClose();
      assert f.log == EventOps(m, Close);
  }

  lemma SeekOnly(m: Machine, pos: nat)
    requires m.handle.Some? && m.disk.orig.Some?
    ensures EventOps(m, Seek(pos)) == [] && NextHandle(m, Seek(pos)) == Some(m.handle.value.(pos := pos))
  {
  }

  lemma CloseOnly(m: Machine)
    requires m.handle.Some? && m.disk.orig.Some?
    ensures EventOps(m, Close) == CLOSE_OPS && NextHandle(m, Close) == None
  {
  }
}
