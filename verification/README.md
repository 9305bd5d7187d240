# Persistence client library: a verified model

The persistence client library keeps the settings of applications in an embedded system: values by
key in small databases, and whole files that survive a loss of power. This project models the parts
of it whose correctness is hardest to see from the code, in the form the code has, and proves what
they promise to their callers.

`dafny verify dfyconfig.toml` checks the project.

## What is modelled

**The red-black tree** (`RbTree.dfy`, `RbHeap.dfy`; `src/rbtree.c`). `RbHeap.JswRbTree` is the tree
as the code has it: nodes with a colour and two links that are changed in place, and one descending
pass that carries the helpers t, g, p and q below a false root. After a rotation the helpers do not
match the tree: t stays behind after a single rotation, and t, g and `last` after a double one, which
also takes q's parent back up. The proof keeps a *phase* beside the loop: the number of coming
iterations that are *quiet*, meaning that they can neither flip colours, nor insert, nor rotate. A
flip or single rotation makes the next iteration quiet, a double rotation the next two, and that is
exactly how long the helpers need to fall back into position. The same count gives the termination
measure, because after a double rotation the height below q does not shrink. `RbTree` holds the
mathematical side, trees with a path of ancestors (a zipper); `RbHeap` ties it to the heap.

**The crash protocol of files** (`BackupProtocol.dfy`, `BackupFiles.dfy`;
`src/persistence_client_library_backup_filelist.c`, `src/persistence_client_library_file.c`). The
state is the original, its backup and its checksum file. Every change of a file is one operation, and
power may be lost before any of them or after any number of bytes of one, in sessions and during
recovery. `BackupProtocol.RunsAreAtomic` shows that every run behaves like a file that is changed by
whole sessions, and within a session like a plain file with an offset. `BackupFiles.ProtectedFile` is the code, and is proved to perform exactly the planned
operations. The specification says precisely when recovery gives a file up: while the backup is an
empty placeholder and no checksum exists; while the checksum text is partly written; and between the
two removals on close. A checksum file is created empty, so its text is not assumed to be written
atomically. `BackupProtocol.NeverTornIff` says for which files no loss of power ever leaves torn
content behind.

**The checksum** (`Crc32.dfy`; `src/crc32.c`). The code's table and loop, with its guard that skips
table entry 255; the bit-by-bit register of section 8 of RFC 1952 beside it; and agreement of the two,
with the exact condition for one byte (`Crc32.StepAgrees`), for all first parts of a buffer
(`Crc32.PrefixIff`) and for a buffer as a whole (`Crc32.AgreesIff`). Burst errors within four bytes are
always detected where entry 255 is not selected.

**The list of files without backup** (`BackupList.dfy`, `FileExemption.dfy`;
`src/persistence_client_library_backup_filelist.c`, `src/persistence_client_library_file.c`). Cutting the
list in place, filling the token array, hashing the entries and searching for a path, end to end on top
of the modules above, and the decision for an opened file, which looks at the raw part of its key. What is
promised is stated with the CRC of the bytes of entry and path. `CStrings.dfy` holds characters and
their bytes.

**Keys and values** (`DbKeys.dfy`, `KeyValues.dfy`; `src/persistence_client_library_prct_access.c`,
`src/persistence_client_library_db_access.c`, `src/persistence_client_library_key.c`). How contexts
are printed into database keys, name by name, and when these can be told apart; what the configuration
table means for a resource; and the operations over the table of
open databases, which is indexed by the sum of storage and database id. `KeyValues.AllRightIff` says
for which configurations, and which contexts and resources used with them, every read, write and delete
in every run, with databases closed and opened again at any time, answers as a plain map with defaults
would.

**Handles** (`Handles.dfy`; `src/persistence_client_library_handle.c`,
`src/persistence_client_library_key.c`). One pool of numbers for key and path handles, with a counter
and a stack of numbers given back, over every run of open, close with arbitrary numbers, and library
start and stop.

**Delivery to the main loop** (`MainLoop.dfy`; `src/persistence_client_library_dbus_service.c`). Any
number of threads, two mutexes, a condition variable and a pipe as a system of atomic steps.
`MainLoop.StopsIff` says when the loop stops, and `MainLoop.ReturnIff` and `MainLoop.HangsIff` say which
calls can count on their command being processed when they return, and which never return.

`Text.dfy` prints numbers as `%x` and `%d` do: as the one numeral that stands for the number.

## Where the code and its promises differ

The model follows the code. These are stated as lemmas:

- The table has 256 entries but the guard compares with 255, so that a byte selecting the last entry
  leaves the register as it is. The checksum is the standard's exactly if what the register misses
  cancels out in the end (`Crc32.AgreesIff`), as it does for one buffer of six bytes
  (`Crc32.Cancelling`). One zero byte already differs from the standard (`Crc32.OneZeroByte`), and
  buffers of zero bytes have checksum 0 whatever their length (`Crc32.ZeroBuffers`).
- Files are not protected if they are empty, or if their checksum text begins with that of a proper
  first part, and only then (`BackupProtocol.NeverTornIff`; for one first write
  `BackupProtocol.ProtectedIff`). Files of zero bytes are an example (`BackupProtocol.ZeroFileTorn`).
  Default data is not protected while it is copied into a new file (`BackupProtocol.CreationIff`).
- `deliverToMainloop` is meant to return when its command was processed. That is certain exactly if
  nothing was unprocessed when it wrote the command (`MainLoop.ReturnIff`, `MainLoop.EarlyReturn`), and
  it never returns exactly if CMD_QUIT had been processed by then (`MainLoop.HangsIff`).
- Shared database 0x7F and local database 0x80 use the same slot of the table of open databases, and
  default databases are found by database id alone although their directory depends on the policy
  (`KeyValues.ValueDirectoriesIff`, `KeyValues.DefaultDirectoriesIff`).
- A resource named `seat/<n>/x` is printed like resource `x` of seat n (`DbKeys.KeysEqual`). The raw
  part of a key is the resource name only for keys with a seat (`DbKeys.RawIsResource`).
- A read-only resource can be deleted, as only writing asks for the permission
  (`KeyValues.ReadOnlyIff`, `KeyValues.ReadOnlyDeleted`).
- Releasing a path handle checks its range only, so that releasing it twice hands one number to two
  clients (`Handles.DisciplinedIff`, `Handles.DoubleRelease`). While 126 numbers are held
  (`Handles.StepKeeps`), opening a key handle returns -1, not EPERS_MAXHANDLE, and creating a path gets
  EPERS_MAXHANDLE as its number, passes the checks at src/persistence_client_library_file.c:617-619
  and goes on with it as an index.
- `key_val_cmp` orders keys the other way round, so that smaller keys are found along `link[1]`;
  `size` counts successful calls of insert, not keys.

## Model

| member | source | states |
|---|---|---|
| RbTree.BalancedPaths | src/rbtree.c:60-72 | in a balanced tree every path from the root to a null link passes the same number of black nodes |
| RbTree.BalancedIff | src/rbtree.c:60-72 | balance is equality of the black counts of all paths, in both directions |
| RbTree.HeightBound | src/rbtree.c:209-234 | a tree with n keys is at most 2 log2(n+1) high, as 2^height <= (n+1)^2 |
| RbTree.OrderedKeys | src/rbtree.c:209-234 | keys lie within the bounds of their place, and none occurs twice, so size is the number of keys |
| RbTree.RepairPossible | src/rbtree.c:284-292 | a red child below a red parent comes up only in an iteration that is not quiet, below a grandparent with a black other child |
| RbTree.FlipLinked | src/rbtree.c:278-283 | a colour flip keeps order, black counts and the keys, and makes no red pair except possibly the one above |
| RbTree.SingleLinked | src/rbtree.c:104-125 | a single rotation removes the red pair and keeps order, black counts and the set of keys |
| RbTree.DoubleLinked | src/rbtree.c:132-137 | the same for a double rotation; two steps further down the walk is where it was before |
| RbTree.IterationOk | src/rbtree.c:269-310 | one iteration keeps all red-black conditions and the keys, plus the new one when it is attached |
| RbTree.NextIteration | src/rbtree.c:269-310 | the next iteration finds its phase and a smaller measure: remaining path, then quiet iterations |
| RbTree.PlugOk | src/rbtree.c:312-313 | when the pass stops anywhere, the whole tree is ordered, balanced and free of red pairs, with exactly the keys of the two parts |
| RbTree.BlackOk | src/rbtree.c:316-317 | painting the root black completes the red-black conditions |
| RbHeap.JswRbTree.constructor | src/rbtree.c:180-206 | a new tree is valid and empty |
| RbHeap.Single | src/rbtree.c:104-125 | the rotation changes the links and colours of two nodes as stated and of no other node |
| RbHeap.Double | src/rbtree.c:132-137 | the double rotation changes three nodes as stated and no other |
| RbHeap.SingleStands | src/rbtree.c:284-292 | on the heap, the rotation hung into t leaves the rotated tree, with all untouched subtrees in place |
| RbHeap.DoubleStands | src/rbtree.c:284-292 | the same for the double rotation |
| RbHeap.RotatesAligned | src/rbtree.c:284-292 | whenever the loop rotates, p is the parent of q, g that of p, t that of g, and `last` leads from g to p |
| RbHeap.MoveHelpers | src/rbtree.c:301-309 | stale helpers are back in position when the quiet iterations are over |
| RbHeap.Advance | src/rbtree.c:269-310 | from one iteration to the next the state of the pass holds again and the measure has decreased |
| RbHeap.JswRbTree.Find | src/rbtree.c:209-234 | an item is found exactly if its key is in the tree, after at most as many comparisons as the tree is high |
| RbHeap.JswRbTree.Insert | src/rbtree.c:241-326 | the tree stays a valid red-black tree on the heap and its key set grows by exactly the given key, whether new or not |
| Crc32.PclCrc32 | src/crc32.c:110-131 | the loop computes the table register over the buffer, and 0 for a null buffer |
| Crc32.TableOk | src/crc32.c:63-106 | every table entry is the bit-by-bit remainder of its index for polynomial 0xEDB88320 |
| Crc32.StepStandard | src/crc32.c:119-127 | for every register and byte, the shift by table is eight steps of the standard's register |
| Crc32.StepAgrees | src/crc32.c:124-125 | the code's step is the standard's exactly if entry 255 is not selected or the register is the one fixed point |
| Crc32.CrcAgrees | src/crc32.c:110-131 | buffers that never select entry 255 have the checksum of section 8 of RFC 1952, from any starting value |
| Crc32.DeviationIs | src/crc32.c:119-127 | the code's register differs from the standard's by the misses at entry 255, each carried on by the bytes after it |
| Crc32.AgreesIff | src/crc32.c:110-131 | for every buffer and starting value, the checksum is the standard's exactly if these misses cancel out |
| Crc32.PrefixIff | src/crc32.c:110-131 | the checksums of all first parts of a buffer are the standard's exactly if each byte avoids entry 255 or meets the fixed point |
| Crc32.Cancelling | src/crc32.c:110-131 | a buffer that selects entry 255 twice, away from the fixed point, and has the standard's checksum |
| Crc32.SingleSelection | src/crc32.c:59-125 | a buffer selecting entry 255 once has the standard checksum exactly if the register there is the fixed point |
| Crc32.CrcConcat | src/crc32.c:110-131 | a first result fed into a second call gives the checksum of both buffers together |
| Crc32.ZeroBuffers | src/crc32.c:110-131 | all buffers of zero bytes have checksum 0 |
| Crc32.OneZeroByte | src/crc32.c:110-131 | the smallest input whose checksum differs from the standard |
| Crc32.WindowStep | src/crc32.c:119-127 | four bytes change the register through the register XOR their word, and through nothing else |
| Crc32.BurstDetected | src/crc32.c:110-131 | buffers of one length that differ within four consecutive bytes only have different checksums |
| Text.ParsePrint | src/persistence_client_library_backup_filelist.c:666 | a printed number can be read back |
| Text.NumeralIff | src/persistence_client_library_backup_filelist.c:666 | a number is printed as its only numeral: digits of the base with that value and no leading zero |
| Text.SignedIff | src/persistence_client_library_prct_access.c:254-259 | %d of an unsigned number is the numeral of its two's complement value |
| Text.PrintInjective | src/persistence_client_library_backup_filelist.c:666 | different checksums have different texts |
| Text.PrintSignedInjective | src/persistence_client_library_prct_access.c:253-258 | different user and seat numbers are printed differently, also those that %d shows as negative |
| BackupProtocol.TextIsChecksum | src/persistence_client_library_backup_filelist.c:415-428 | comparing the texts of nonempty contents is comparing their checksums |
| BackupProtocol.ChecksumTextIs | src/persistence_client_library_backup_filelist.c:663-667 | the text of a nonempty content is the hexadecimal numeral of its CRC |
| BackupProtocol.PowerLoss | src/persistence_client_library_backup_filelist.c:573-634 | power that outlasts a plan of file operations has no effect, else one operation is cut short and the rest does not happen |
| BackupProtocol.CheckSound | src/persistence_client_library_backup_filelist.c:383-550 | a file is reported good only if it now agrees with the checksum file or else with the backup; -1 means that all three files are gone |
| BackupProtocol.CheckAgain | src/persistence_client_library_backup_filelist.c:383-569 | a check that was completed or cut short anywhere, run again, ends with the same files |
| BackupProtocol.FirstWriteCut | src/persistence_client_library_file.c:508-536 | power lost at any point of the first write: the old content survives, or it is one of the two windows and the file is given up |
| BackupProtocol.LaterWriteCut | src/persistence_client_library_file.c:508-536 | power lost during any later write: the old content survives |
| BackupProtocol.CloseCut | src/persistence_client_library_file.c:83-90 | power lost on close: the old or the new content, or the window between the two removals |
| BackupProtocol.Refines | src/persistence_client_library_file.c:181-560 | every call, with or without loss of power, is a step of a file that changes by whole sessions |
| BackupProtocol.RunsAreAtomic | src/persistence_client_library_file.c:181-560 | the same for every run of calls and losses of power, until the file is given up in a window or has content its checksum cannot tell from a part; within a session content and offset are those of a plain file |
| BackupProtocol.SessionIsPlain | src/persistence_client_library_file.c:436-560 | after any seeks and writes of a session content and offset are those of a plain file, for every file |
| BackupProtocol.WritesJoin | src/persistence_client_library_file.c:508-536 | two writes in a row leave what one write of both leaves, from any position, also if the first takes the backup |
| BackupProtocol.CreatedSession | src/persistence_client_library_file.c:289-306 | a file created when opened has its default data, and its first write takes the backup of that |
| BackupProtocol.ReopenAfterLoss | src/persistence_client_library_file.c:232-246 | the next open finds the content before the session, the complete content after it, or nothing, and nothing exactly in the windows |
| BackupProtocol.NonemptyKept | src/persistence_client_library_file.c:508-536 | after a first write cut short a nonempty file is as before or gone, if no proper first part has its checksum text |
| BackupProtocol.ProtectedIff | src/persistence_client_library_backup_filelist.c:413-419 | among all files, exactly these have that protection |
| BackupProtocol.NeverTornIff | src/persistence_client_library_file.c:71-560 | in all runs up to the first close the next check finds the old content, the complete new one, or nothing, exactly for nonempty files whose checksum text does not begin with that of a proper first part |
| BackupProtocol.EmptyFileTorn | src/persistence_client_library_backup_filelist.c:413 | a torn first write to an empty file stays visible |
| BackupProtocol.TornBackup | src/persistence_client_library_backup_filelist.c:415-419 | a partly written backup replaces an intact original exactly if the checksum texts agree |
| BackupProtocol.ZeroFileTorn | src/persistence_client_library_backup_filelist.c:415-419 | that happens to files of zero bytes |
| BackupProtocol.CreatedIs | src/persistence_client_library_file.c:289-306 | what is found after power was lost while a missing file was created, at every point |
| BackupProtocol.CreationIff | src/persistence_client_library_file.c:289-306 | a file is created whole or not at all exactly if there is no default data, or none to copy |
| BackupFiles.ProtectedFile.CalcCrc32Csum | src/persistence_client_library_backup_filelist.c:638-680 | the text covers the whole file from any position, and the position is put back |
| BackupFiles.ProtectedFile.FileCopyToBackup | src/persistence_client_library_backup_filelist.c:299-312 | the copy takes what follows the position of the source and moves it to the end |
| BackupFiles.ProtectedFile.CreateBackup | src/persistence_client_library_backup_filelist.c:573-634 | the planned operations, with a copy of the whole original, and the writer's position unchanged |
| BackupFiles.ProtectedFile.RecoverFromBackup | src/persistence_client_library_backup_filelist.c:554-569 | the original is emptied and gets the backup's content, if it exists |
| BackupFiles.ProtectedFile.VerifyConsistency | src/persistence_client_library_backup_filelist.c:383-550 | verdict and file operations are those of the protocol for every combination of files |
| BackupFiles.ProtectedFile.FileOpen | src/persistence_client_library_file.c:232-317 | opening performs the operations of the protocol and refuses a file that is given up |
| BackupFiles.ProtectedFile.FileWriteData | src/persistence_client_library_file.c:493-560 | the first write takes checksum and backup before it changes the original, later ones do not, and every write moves the position past its data |
| BackupFiles.ProtectedFile.FileClose | src/persistence_client_library_file.c:71-115 | backup goes before checksum |
| BackupFiles.CallEvent | src/persistence_client_library_file.c:181-560 | with any amount of power, a call leaves the files as the protocol's step does |
| BackupList.FillTokenArray | src/persistence_client_library_backup_filelist.c:61-94 | delimiters are overwritten in place and the tokens point at the starts of the entries |
| BackupList.DelimiterIff | src/persistence_client_library_data_organization.c:96-103 | by the character table, entries end at control characters and blanks only |
| BackupList.EntriesAreListed | src/persistence_client_library_backup_filelist.c:61-94 | tokens stand for exactly the delimiter-terminated entries of the list |
| BackupList.EntryString | src/persistence_client_library_backup_filelist.c:97-135 | what is read as a string at a token of the cut list is the entry of the original list |
| BackupList.ExemptList.CreateAndStoreFileNames | src/persistence_client_library_backup_filelist.c:97-135 | the tree holds the checksums of the entries, each once, and nothing else |
| BackupList.ExemptList.ReadListFile | src/persistence_client_library_backup_filelist.c:138-200 | a nonempty list file is loaded, an empty one leaves everything as it was |
| BackupList.KeyIsChecksum | src/persistence_client_library_backup_filelist.c:684-687 | two paths have one key exactly if the CRCs of their bytes are equal |
| BackupList.PathChecksum | src/persistence_client_library_backup_filelist.c:684-687 | the key is computed by the CRC loop over the path |
| BackupList.ExemptList.BackupNeeded | src/persistence_client_library_backup_filelist.c:203-229 | no backup exactly if the bytes of some entry have the CRC of the bytes of the path, hence none for every listed path shorter than 128 characters |
| BackupList.OtherPathNotExempt | src/persistence_client_library_backup_filelist.c:203-229 | a path that differs from the only entry within four characters keeps its backup, if neither selects table entry 255 |
| FileExemption.RawPath | src/persistence_client_library_file.c:235-241 | the path looked up for an opened file of a seat is "/" and the resource |
| FileExemption.SameForAll | src/persistence_client_library_file.c:235-241 | whether a resource is exempt is the same for every user and seat number |
| FileExemption.FileNeedsBackup | src/persistence_client_library_file.c:235-241 | the decision on opening, from the printed key to the list, depends on the resource alone |
| BackupList.KeysAreListed | src/persistence_client_library_backup_filelist.c:684-687 | the key of a path is in the tree exactly if a listed entry has the CRC of the path |
| DbKeys.KeyIff | src/persistence_client_library_prct_access.c:236-282 | the key is the one path of these names: database id in hexadecimal where it is printed, node, or user and seat with their numbers as numerals, and the resource |
| DbKeys.KeysEqual | src/persistence_client_library_prct_access.c:236-282 | keys in one directory are equal exactly for the same context and resource, or if one resource is named like a seat of the other |
| DbKeys.KeysDecode | src/persistence_client_library_prct_access.c:236-282 | otherwise the key determines database id, user, seat and resource, across all printed forms |
| DbKeys.GetRawString | src/persistence_client_library_file.c:49-68 | the scan ends at the fifth slash, or past the end if there are fewer |
| DbKeys.RawIsResource | src/persistence_client_library_file.c:49-68 | the raw part is "/" and the resource, for every user and seat, exactly for plain keys with a seat |
| KeyValues.KeyStore.DatabaseGet | src/persistence_client_library_db_access.c:66-129 | a database is opened once per slot and found again afterwards |
| KeyValues.KeyStore.GetDefaults | src/persistence_client_library_db_access.c:132-189 | the configurable default, else the factory default, else EPERS_NOKEY |
| KeyValues.KeyStore.KeyReadData | src/persistence_client_library_key.c:360-405 | what is read and opened, with every error, is that of the specification function |
| KeyValues.KeyStore.KeyWriteData | src/persistence_client_library_key.c:409-473 | what is written, opened and returned, with size limit and permission |
| KeyValues.UnlistedLocal | src/persistence_client_library_prct_access.c:189-217 | with any databases open, a resource of 0xFF that no table lists keeps what is written within the limit, reads it back, and can be deleted |
| KeyValues.UnlistedWhere | src/persistence_client_library_prct_access.c:189-217 | such a value goes to the cached local database and nowhere else |
| KeyValues.ListedBehaves | src/persistence_client_library_prct_access.c:158-181 | a listed resource keeps its values in the database of its table and policy, refuses writes with -39 or is no key, by its own entry |
| KeyValues.UnlistedRefused | src/persistence_client_library_prct_access.c:176-187 | other resources are refused with -8 if their database id has a table and -6 if not, and nothing changes |
| KeyValues.TooLong | src/persistence_client_library_key.c:416-465 | a write is refused with -5 exactly if the value exceeds the limit |
| KeyValues.KeyStore.KeyDelete | src/persistence_client_library_key.c:275-315 | what is deleted and returned; no permission is asked for |
| KeyValues.KeyStore.DatabaseCloseAll | src/persistence_client_library_db_access.c:216-238 | the loops over all rows and columns of the table leave no database open, and no content changes |
| KeyValues.SlotsShared | src/persistence_client_library_db_access.c:71-73 | two resources share a slot exactly for one database id, or for 0x7F and 0x80 |
| KeyValues.ValueDirectoriesIff | src/persistence_client_library_db_access.c:71-73 | values are kept apart exactly if 0x7F and 0x80 are not both used with one policy and no resource is named like a seat of another |
| KeyValues.DefaultDirectoriesIff | src/persistence_client_library_db_access.c:71-73 | defaults share no foreign directory exactly if each database id has one policy and 0x7F and 0x80 are not both used |
| KeyValues.Elsewhere | src/persistence_client_library_db_access.c:345-382 | a write or delete changes the value at its own context and resource and no other value or default |
| KeyValues.RunKeeps | src/persistence_client_library_db_access.c:242-593 | in every run the value at every context is the one last written and not deleted |
| KeyValues.ForeignSlot | src/persistence_client_library_db_access.c:66-129 | if another resource fills the slot first, with its own database, an existing value or default is not found |
| KeyValues.ShadowClash | src/persistence_client_library_prct_access.c:236-282 | deleting a value deletes that of a resource printed with the same key |
| KeyValues.ValuesRightIff | src/persistence_client_library_db_access.c:242-593 | values are read back in every run exactly if no two databases share a slot for values and no two resources a key |
| KeyValues.AllRightIff | src/persistence_client_library_db_access.c:242-593 | every read gives the last value, else configurable default, else factory default, else no-key, in every run, exactly if, besides, no two directories share a slot for defaults |
| KeyValues.ReadOnlyValue | src/persistence_client_library_key.c:435 | in every run a read-only resource has its first value until it is deleted, and none afterwards |
| KeyValues.ReadOnlyIff | src/persistence_client_library_key.c:275-315 | a run leaves a read-only resource unchanged exactly if it does not delete it or nothing was stored |
| KeyValues.ReadOnlyDeleted | src/persistence_client_library_key.c:275-315 | a read-only value that cannot be written and is deleted |
| Handles.PersistenceHandles.GetPersistenceHandleIdx | src/persistence_client_library_handle.c:54-79 | the number given back last, else a new one, else EPERS_MAXHANDLE |
| Handles.PersistenceHandles.SetPersistenceHandleCloseIdx | src/persistence_client_library_handle.c:82-92 | the number goes on the stack unless that is full |
| Handles.PersistenceHandles.CloseAllPersistenceHandle | src/persistence_client_library_handle.c:95-110 | all numbers are taken back, the records stay |
| Handles.PersistenceHandles.KeyHandleOpen | src/persistence_client_library_key.c:43-80 | result and pool are those of the specification's step, with every error |
| Handles.PersistenceHandles.KeyHandleClose | src/persistence_client_library_key.c:84-113 | the same for every integer passed as handle |
| Handles.PersistenceHandles.KeyHandleReadData | src/persistence_client_library_key.c:148-176 | reading by handle is reading the context and resource recorded for it |
| Handles.PersistenceHandles.KeyHandleWriteData | src/persistence_client_library_key.c:235-265 | writing by handle is writing to the context and resource recorded for it |
| Handles.PersistenceHandles.FileReleasePath | src/persistence_client_library_file.c:715-752 | the number goes back to the pool after a check of its range only |
| Handles.PersistenceHandles.InitLibraryHandles | src/persistence_client_library.c:135-144 | the first call clears the records, later ones only count |
| Handles.PersistenceHandles.DeinitLibraryHandles | src/persistence_client_library.c:158-234 | the last call closes the databases and takes all handles back, earlier ones only count |
| Handles.NestedStart | src/persistence_client_library.c:146-153 | a nested start is undone by one stop and changes nothing else |
| Handles.StartsCounted | src/persistence_client_library.c:59-234 | in every run the library is up exactly as long as it was started more often than stopped |
| Handles.KeyIff | src/persistence_client_library_key.c:60-63 | a key handle can be opened exactly for listed keys and for unlisted resources of 0xFF |
| Handles.CountHandles | src/persistence_client_library_handle.c:54-92 | held and free numbers add up to the issued ones, so the stack never overflows |
| Handles.TakeKeeps | src/persistence_client_library_handle.c:54-79 | a number is refused exactly if 126 are held, and is otherwise one that nobody holds |
| Handles.DisciplinedIff | src/persistence_client_library_file.c:715-752 | a call keeps every number held once or free once exactly if it does not release, as a path, a number that is not held or that a key is recorded under |
| Handles.StepKeeps | src/persistence_client_library_key.c:43-113 | every call returns what the clients' holdings call for and keeps every issued number held once or free once |
| Handles.RunKeeps | src/persistence_client_library_handle.c:54-182 | the same in every run from the start of the process |
| Handles.HandleKept | src/persistence_client_library_key.c:43-113 | a key handle names what it was opened for until it is closed or the library goes down, whatever other calls do |
| Handles.LastInFirstOut | src/persistence_client_library_handle.c:54-92 | the number closed last is the one opened next |
| Handles.ReleaseIff | src/persistence_client_library_file.c:715-752 | releasing a number as a path keeps handles apart exactly if it is held and no key is recorded under it |
| Handles.DoubleRelease | src/persistence_client_library_file.c:715-752 | a path released twice makes two clients share a number |
| MainLoop.InvKept | src/persistence_client_library_dbus_service.c:603-743 | every step of every thread keeps mutual exclusion, the order of commands and the cover of waiting threads |
| MainLoop.ProcessedInOrder | src/persistence_client_library_dbus_service.c:603-658 | commands are processed exactly once, in the order of writing, in every run |
| MainLoop.StopsIff | src/persistence_client_library_dbus_service.c:647-656 | in every run the loop has stopped exactly if CMD_QUIT was processed and the mutex released, and CMD_QUIT is then the last command processed |
| MainLoop.QuitStops | src/persistence_client_library_dbus_service.c:603-658 | a written CMD_QUIT can be brought to stop the loop from every state |
| MainLoop.NoWakeupLost | src/persistence_client_library_dbus_service.c:710-726 | a waiting thread has an unprocessed command ahead or a signal that is about to be given, and the signal will reach it |
| MainLoop.SignalIsOwn | src/persistence_client_library_dbus_service.c:655-656 | in every run a signal follows the waiter's own command exactly if nothing was unprocessed when that was written |
| MainLoop.SerialKept | src/persistence_client_library_dbus_service.c:710-726 | with blocking senders only, at most one command is under way |
| MainLoop.BlockingReturns | src/persistence_client_library_dbus_service.c:710-726 | then a sender returns only after its own command was processed, in every run |
| MainLoop.ReturnsAfterProcessing | src/persistence_client_library_dbus_service.c:710-743 | whatever others write without waiting, a call that found nothing unprocessed returns only after its own command was processed |
| MainLoop.NextCommandReturns | src/persistence_client_library_dbus_service.c:710-743 | a call with its command in the pipe of a running loop can return after the next command, whose ever it is; the loop goes on polling unless that was CMD_QUIT |
| MainLoop.ReturnIff | src/persistence_client_library_dbus_service.c:710-743 | on all continuations a call returns after its own command only, exactly if nothing was unprocessed when it wrote that or CMD_QUIT had been processed |
| MainLoop.AttendedReturns | src/persistence_client_library_dbus_service.c:710-743 | a call that is not left behind by the loop can go on to its return from every state |
| MainLoop.HangsIff | src/persistence_client_library_dbus_service.c:647-726 | a call comes to a state from which it never returns exactly if CMD_QUIT had been processed when it wrote its command |
| MainLoop.EarlyReturn | src/persistence_client_library_dbus_service.c:710-743 | a run in which a sender returns before its command is processed |
| MainLoop.WorkShrinks | src/persistence_client_library_dbus_service.c:603-743 | calls under way and written commands need finitely many more steps |
| MainLoop.NoDeadlock | src/persistence_client_library_dbus_service.c:603-743 | some step is possible while a call is under way, unless it waits for a stopped loop |
| MainLoop.WaitsForever | src/persistence_client_library_dbus_service.c:647-656 | after CMD_QUIT and the signal for it nothing but a spurious wakeup ends a wait |

## Left out

- The code of the tree under `#if 0` (deletion, traversal, size) is compiled out and not modelled.
- The array `link[2]` of a tree node is two fields; items are their keys, and comparison is `key_val_cmp`.
- Failing allocation, short reads and writes, and errors of opened files are not modelled.
- BackupFiles.ProtectedFile.CalcCrc32Csum: reads the file in one piece, as the buffer has its size.
- BackupProtocol.RunsAreAtomic: covers one writer, operations that reach the disk in order, and files opened for reading and writing, and claims nothing after a file was given up or was opened with content whose checksum text begins with that of a first part; NeverTornIff shows that such content is torn by some run.
- BackupProtocol.FirstWriteCut: asks for content that is protected, in the sense of NeverTornIff or, in a first session, of ProtectedIff, both of which show that it has to.
- BackupFiles.ProtectedFile.FileCopyToBackup: gives no result, as copying does not fail in the model.
- BackupFiles.ProtectedFile.CreateBackup: gives no result, for the same reason.
- BackupFiles.ProtectedFile.RecoverFromBackup: does not fail but for a missing original.
- BackupFiles.ProtectedFile.FileOpen: opens files that need a backup; read-only, write-only, exempt and unlisted resources are not modelled.
- BackupFiles.ProtectedFile.FileWriteData: writes to an open file; a wrong descriptor or permission is not modelled.
- BackupProtocol.PowerLoss: a write cut short leaves a first part of its data, and removal, creation and truncation are atomic.
- The file cache variant of file access (`USE_FILECACHE`), file removal, mapping and reading are not modelled.
- BackupList.FillTokenArray: requires fewer tokens than the array holds and a fresh array; a full array and tokens left from an earlier list are not modelled.
- BackupList.ExemptList.CreateAndStoreFileNames: requires a token array that is not full, as the loop looks one token ahead.
- BackupList.ExemptList.ReadListFile: requires fewer entries than the token array holds, and loads into a fresh array.
- BackupList.ExemptList.BackupNeeded: entries of 128 characters and more are listed by their first 127.
- Crc32.PclCrc32: lengths are unbounded numbers.
- DbKeys.KeysEqual: keys are not truncated to the maximal length, and `/node`, `/user/` and `/seat/` stand for constants of persComDataOrg, which is not part of this model.
- DbKeys.GetRawString: requires a nonempty buffer and stands for the returned pointer by its position.
- KeyValues.AllRightIff: speaks of contexts and resources that are keys in the storage their database id calls for, with database ids below 0x400, the size of the table of open databases.
- KeyValues.KeyStore.DatabaseGet: databases and configuration tables are maps that can always be opened, by a value in place of their path; the table of handles and the flags beside it are one map.
- KeyValues.KeyStore.GetDefaults: reads values only; asking for the size of a default is not modelled.
- KeyValues.KeyStore.KeyReadData: does not truncate values to the caller's buffer; custom storage is not modelled.
- KeyValues.KeyStore.KeyWriteData: internal errors of the database and the result of the notification for shared values are not modelled.
- KeyValues.KeyStore.KeyDelete: internal errors of the database and the notification are not modelled.
- FileExemption.FileNeedsBackup: keys are not truncated, and characters are bytes.
- Database ids of 0x80000000 and more, which the code converts to negative numbers, are not modelled.
- The lock on access and the count of cancelled shutdowns are not modelled; access is taken as granted.
- Handles.StepKeeps: a release as in DisciplinedIff is excluded; what the code does in memory with EPERS_MAXHANDLE as an index is not modelled.
- Handles.RunKeeps: calls follow one another and releases are as in DisciplinedIff; a shutdown message without a new start is not modelled, and resource names are not truncated.
- Handles.PersistenceHandles.KeyHandleOpen: the error for an unknown storage is not modelled, as all storages of the model are known.
- Handles.PersistenceHandles.FileReleasePath: the files of the path and its open flag are not modelled; of creating a path only the number is.
- Handles.PersistenceHandles.InitLibraryHandles: starting the main loop and its failures are not modelled.
- Handles.PersistenceHandles.DeinitLibraryHandles: the return codes of the services that are shut down are not modelled.
- MainLoop.InvKept: the pipe is never full, its writes are atomic, and a command is processed in one step; D-Bus watches, timers and messages are not modelled.
- Custom storage plugins, the D-Bus interfaces and logging call code that is not part of this model.
