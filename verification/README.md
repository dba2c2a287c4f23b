# FAT32 driver verification

A Dafny model of the FAT32 driver in `drivers/fat32/` and of the string routines in `lib/string.c`
that it relies on, with proofs of what the driver promises. The on-disk structures are those of
Microsoft's "FAT: General Overview of On-Disk Format" (fatgen103), sections "FAT Data Structure",
"FAT Directory Structure" and "FAT Long Directory Entries".

Layers, bottom up:

| files | what they hold |
|---|---|
| `Arithmetic`, `Bytes`, `Memory`, `Device` | division facts, bytes, little-endian fields, the memory loops, and a block device whose one-sector transfers succeed or move nothing |
| `Geometry`, `Mounts` | the boot sector, cluster and LBA arithmetic, unmounting, free space |
| `Chains`, `Ledger`, `Runs` | the FAT as a table of 28-bit entries, cluster chains, runs of allocation, extension and freeing |
| `Image`, `Fat` | the one-sector write-back cache with its mirrors, and the FAT operations over it |
| `Contents`, `Files`, `FileLaws`, `WriteLaws` | file contents along a chain, the open-file table, reading, writing, seeking, runs of reads and of writes |
| `ShortNames`, `Slots`, `DirMaps`, `Directories`, `LongNames`, `Listings` | the 8.3 codec, directory slots, the map a directory stands for, its operations, long names |
| `Tokens`, `Paths`, `Lookups` | `strtok`, path resolution, and its stability under file operations |
| `Soundness`, `Handles`, `Renames`, `MakeDirs`, `FileSystems`, `Persistence`, `Copies` | whole volumes: no two files or directories share a cluster, and exactly when each operation keeps it so |
| `WorkingDirs`, `Sessions` | the working directory as cluster and path string |
| `Numbers` | `itoa` and `atoi` |
| `Formatted` | a formatted volume that meets every invariant, mounted and used |

The mounted volume is an object with the FAT buffer, the cached sector number and the dirty flag as
fields; ghost fields hold the logical FAT words, their low 28 bits and the bytes of every cluster,
and `Valid` ties them to the sectors on the device. A device that is not `reliable` may fail at any
call; the FAT layer and the cluster transfers are proved for such devices too. The layers above are
proved for devices that work.

What the driver relies on without checking is the predicate `Geometry.WellFormed`: 512-byte sectors,
at most 64 of them per cluster, at least one FAT, regions in order without wrap-around, a FAT with an
entry for every cluster, cluster numbers below the bad-cluster mark. `Mounts.ParseUsable` says for
exactly which boot sectors it holds. Whole-volume operations keep the predicate `Soundness.Sound`:
directories and files are chains of their own, end marks close directories, live names are unique,
and directory entries that are directories lead to directories or to cluster 0.

Where the code does less than one might expect, the model follows the code and says exactly when the
expected result holds:

- A read that ends on a cluster boundary leaves the cursor behind: `FileLaws.CursorLaw`,
  `FileLaws.ReadsConcatenate` and `FileLaws.ChunkedReadsFaithful`.
- So does a write, and the next one overwrites: `WriteLaws.WriteLaw` and `WriteLaws.WriteLands` say where
  bytes land, `WriteLaws.AppendExact`, `WriteLaws.OverwriteExact` and `WriteLaws.AppendedContent` exactly
  when a run of writes appends, `WriteLaws.TwoClusters` is the input that loses a cluster.
- The first write to an empty file lands in its first cluster, wherever the position is: `WriteLaws.WriteFar`.
- A copy holds at most one cluster of its source and is faithful exactly up to that: `Copies.Copy`.
- A seek to the end of a file that exactly fills its clusters stops at the end mark, and a write after
  it starts outside every cluster: `FileLaws.WriteAfterSeek` says when, `FileLaws.AppendMisses` where.
- Names are cut to 8.3 when stored but compared in full, and one that starts with byte 0xE5 reads as
  free: `DirMaps.CreatedAnswers`, `DirMaps.TruncationCollides` and `DirMaps.CreatedExact`.
- Renaming does not ask whether the new name exists: `Renames.RenameKeeps` is the exact condition under
  which the volume stays in order, see `FileSystems.FileSystem.Rename` and `Renames.RenameVolume`.
- Lookups skip volume labels, deletions and updates do not: `DirMaps.ScansAgree`.
- Dropping the FAT cache after a failed flush loses what was in it: `Fat.Volume.InvalidateCache`.
- A directory creation that finds its parent full loses a cluster: `FileSystems.FileSystem.CreateDir`.
- A failed change of directory may have edited the path string, or emptied it: `WorkingDirs.FailedChange`
  gives the exact condition, `WorkingDirs.FailedChangeStrays` what can follow.
- A link to cluster 0 is the root for a change of directory and nowhere for a path lookup:
  `WorkingDirs.PathStringLeads`.
- A change to ".." does not ask whether the entry is a directory, and trusts the path string:
  `Sessions.Session.ChangeDir`, `WorkingDirs.UpInStep`, `WorkingDirs.UpInTree`.

## Model

| member | source | states |
|---|---|---|
| Geometry.ClusterLbaRoundTrip | drivers/fat32/bpb.c:55-63 | the 32-bit arithmetic does not wrap on a cluster, and every LBA of a cluster maps back to that cluster |
| Geometry.RegionsDisjoint | drivers/fat32/bpb.c:36-49 | reserved area, every FAT copy and every cluster lie in this order, inside the volume |
| Geometry.DataLbaInjective | drivers/fat32/bpb.c:55-58 | distinct clusters share no sector |
| Geometry.FatLbaInjective | drivers/fat32/fat.c:14-17 | distinct FAT copies share no sector |
| Geometry.EndMarkOutside | drivers/fat32/bpb.c:55-58 | taken for a cluster, an end mark leads to sectors of no cluster, and for 16 sectors per cluster or more to sectors just below the data area |
| Mounts.ParseBpb | drivers/fat32/bpb.c:9-53 | succeeds exactly when the first sector is read and accepted, and then with the geometry computed from it |
| Mounts.BootRoundTrip | drivers/fat32/bpb.c:16-49 | from any field values written at their places in the boot sector: exactly which are accepted, and then every field and derived number, root cluster and 16-bit sector count included |
| Mounts.ParseUsable | drivers/fat32/bpb.c:16-49 | the computed geometry is usable exactly for boot sectors with 512-byte sectors, regions in order and a large enough FAT |
| Mounts.GetFreeSpace | drivers/fat32/mount.c:158-161 | free clusters times cluster size, wrapping at 4 GiB and only there |
| Mounts.Unmount | drivers/fat32/mount.c:37-47 | afterwards every FAT copy on disk spells out the logical FAT |
| Image.FlushWrite | drivers/fat32/fat.c:14-19 | writing the dirty sector to any copy, alone, keeps cache, mirrors, entries and clusters consistent |
| Image.SyncedCopies | drivers/fat32/fat.c:11-23 | on a clean cache all FAT copies agree with the logical FAT |
| Image.ClusterWrite | drivers/fat32/bpb.c:80-89 | a data sector write changes those bytes of that cluster and nothing else on the volume |
| Fat.Volume.FlushCache | drivers/fat32/fat.c:11-23 | success cleans the cache; failure, even halfway through the copies, leaves every entry as it was |
| Fat.Volume.LoadSector | drivers/fat32/fat.c:25-41 | caching another sector changes no entry, whether it succeeds or fails |
| Fat.Volume.GetEntry | drivers/fat32/fat.c:43-56 | the logical 28-bit entry, or the bad-cluster value when the device fails |
| Fat.Volume.SetEntry | drivers/fat32/fat.c:58-74 | success changes exactly one entry and keeps its top four bits; failure changes nothing |
| Fat.Volume.FindFreeCluster | drivers/fat32/fat.c:76-86 | a free cluster, the least one on a working device, 0 if there is none |
| Fat.Volume.AllocateCluster | drivers/fat32/fat.c:88-99 | a free cluster becomes a chain of its own, and nothing else changes |
| Fat.Volume.ExtendChain | drivers/fat32/fat.c:101-103 | links two clusters |
| Fat.Volume.FreeChain | drivers/fat32/fat.c:105-117 | terminates on any table whose links are in range and leaves the table of `Chains.Freed` |
| Fat.Volume.CountFreeClusters | drivers/fat32/fat.c:119-130 | the number of free clusters, never more than that on a failing device |
| Fat.Volume.GetChainLength | drivers/fat32/fat.c:132-142 | the length of the chain at a cluster |
| Fat.Volume.SyncFat | drivers/fat32/fat.c:144-146 | cleans the cache without changing an entry |
| Fat.Volume.InvalidateCache | drivers/fat32/fat.c:148-151 | a failed flush can lose entries of the cached sector only, which then are what copy 0 says |
| Fat.Volume.ReadCluster | drivers/fat32/bpb.c:69-78 | the bytes of a cluster |
| Fat.Volume.WriteCluster | drivers/fat32/bpb.c:80-89 | replaces a cluster's bytes; a failure leaves a prefix of whole sectors written |
| Chains.ChainAcyclic | drivers/fat32/fat.c:101-117 | a chain that reaches an end mark visits no cluster twice |
| Chains.AnyEndMark | drivers/fat32/bpb.c:65-67 | a chain may end in any mark from 0x0FFFFFF8 on, and in no other entry |
| Chains.ChainUnique | drivers/fat32/fat.c:132-142 | the first cluster determines the chain |
| Chains.NoneFree | drivers/fat32/fat.c:76-86 | the search for a free cluster fails exactly when none is free |
| Chains.FreedExact | drivers/fat32/fat.c:105-117 | on any table, cyclic or cross-linked, freeing zeroes exactly the clusters reachable from the start |
| Chains.FreedChain | drivers/fat32/fat.c:105-117 | on a well-formed chain, freeing zeroes precisely that chain and raises the free count by its length |
| Chains.LinksInRangeWalk | drivers/fat32/fat.c:105-117 | links inside the table are enough for freeing to stay inside it |
| Ledger.StepKeeps | drivers/fat32/fat.c:88-117 | allocating, extending and freeing keep chains well formed and disjoint, and free plus held clusters constant |
| Ledger.RunKeeps | drivers/fat32/fat.c:76-117 | the same in every state of every run, with all chains acyclic |
| Ledger.GrownChain | drivers/fat32/file.c:241-251 | growing a chain by least free clusters keeps the old chain as a prefix and touches only its tail and free clusters |
| Runs.Replay | drivers/fat32/fat.c:76-117 | the driver's own functions follow the ledger through any run of operations |
| Runs.FreeAndCount | drivers/fat32/fat.c:105-142 | freeing raises the measured free count by exactly the chain length measured before |
| Runs.AllocateAndCount | drivers/fat32/fat.c:76-130 | allocation returns the least free cluster and lowers the measured free count by one |
| Contents.ContentPut | drivers/fat32/file.c:227-231 | rewriting part of one cluster of a chain replaces just those bytes of the file |
| Files.FileTable.FindFreeFd | drivers/fat32/file.c:28-35 | the first handle not in use, or none |
| Files.FileTable.ReadChain | drivers/fat32/file.c:153-183 | delivers the file's bytes from the cursor on, as many as wanted and present, cursor on the last cluster touched |
| Files.FileTable.Read | drivers/fat32/file.c:132-184 | the same with the error cases and the cut at the end of the file |
| Files.FileTable.WriteChain | drivers/fat32/file.c:214-259 | puts the bytes at the cursor, growing the chain by least free clusters; short only when none is free |
| Files.FileTable.Write | drivers/fat32/file.c:186-260 | the whole write: effect on FAT, clusters and handle, and the cases in which nothing happens |
| Files.FileTable.Seek | drivers/fat32/file.c:283-308 | the cursor stops at the addressed cluster, or at the end mark behind the last one |
| FileLaws.CursorLaw | drivers/fat32/file.c:156-181 | through any run of reads, from any start, the cursor falls one cluster behind the position for every read that ends on a cluster boundary |
| FileLaws.ReadsConcatenate | drivers/fat32/file.c:156-183 | from an opening or a seek on, reads deliver the file's bytes in order as long as no read but the last ends on a boundary |
| FileLaws.ReadRun | drivers/fat32/file.c:132-184 | the driver's handle follows the abstract reader of both laws through any run of reads, from any start |
| FileLaws.ChunkedReadsRepeat | drivers/fat32/file.c:455-465 | reading in equal chunks that divide the cluster delivers the first cluster over and over |
| FileLaws.ChunkedReadsFaithful | drivers/fat32/file.c:455-465 | so chunked reading is faithful for all contents exactly up to one cluster |
| FileLaws.SeekThenRead | drivers/fat32/file.c:132-308 | seek, read: the bytes at the position, whatever happened before |
| FileLaws.SeekThenRun | drivers/fat32/file.c:132-308 | a seek inside the chain puts cursor and position in step for the whole run of reads that follows |
| FileLaws.WriteAfterSeek | drivers/fat32/file.c:204-308 | after a seek a write starts on the file's own sectors exactly when the file is empty or the position is inside its chain, and otherwise on sectors of no cluster |
| FileLaws.AppendMisses | drivers/fat32/file.c:204-308 | the input: clusters of 16 sectors and a seek to the end of a file that fills its last one put the next write 48 sectors below the data area |
| FileLaws.WriteThenRead | drivers/fat32/file.c:186-308 | seek, write, seek, read gives back the bytes the write accepted |
| WriteLaws.WriteLaw | drivers/fat32/file.c:214-259 | through any run of writes the cursor falls one cluster behind the position for every write that ends on a cluster boundary |
| WriteLaws.WriteLands | drivers/fat32/file.c:214-259 | where a write lands: as many clusters before its position as the cursor is behind |
| WriteLaws.AppendExact | drivers/fat32/file.c:214-259 | a run of writes from the end of the stream leaves the stream followed by all the bytes exactly when nothing is accepted after a write that ended on a boundary |
| WriteLaws.OverwriteExact | drivers/fat32/file.c:214-259 | from any place inside the file, writes of given lengths leave all their bytes in order, for all contents, exactly under the same condition |
| WriteLaws.AppendedContent | drivers/fat32/file.c:186-260 | on the volume: the chain holds as many bytes as the position says exactly under that condition, and then the old bytes followed by the new |
| WriteLaws.WriteRun | drivers/fat32/file.c:186-260 | the driver's handle follows the abstract writer through any run of writes; bytes are refused only on a full volume |
| WriteLaws.TwoClusters | drivers/fat32/file.c:186-260 | the input: two writes of one cluster each to an empty file leave a size of two clusters and one cluster, the second |
| WriteLaws.WriteFar | drivers/fat32/file.c:186-308 | seek, write on an empty file: the bytes land at the position modulo the cluster, and the file has the bytes its size says exactly for positions in the first cluster |
| ShortNames.CodecExact | drivers/fat32/directory.c:32-89 | decoding an encoded name gives it back in upper case exactly when it fits the 8.3 shape |
| ShortNames.EncodeInjective | drivers/fat32/directory.c:49-89 | fitting names with equal encodings differ at most in case |
| ShortNames.UpperExact | drivers/fat32/directory.c:176-215 | upper-casing identifies exactly the names that agree up to ASCII case, and leaves everything but small letters alone |
| ShortNames.EncodeBytes | drivers/fat32/directory.c:49-89 | the eleven stored bytes: what stands before and after the last dot, cut or filled up with blanks, without small letters |
| ShortNames.DecodeBytes | drivers/fat32/directory.c:32-47 | two parts filled up with blanks print joined by a dot, or alone when there is no extension |
| ShortNames.ShortNameToString | drivers/fat32/directory.c:32-47 | prints the decoded name and its NUL into 13 bytes |
| ShortNames.StringToShortName | drivers/fat32/directory.c:49-89 | the scan for the last dot and the two copying loops store the encoded name |
| Slots.UpdateSlotFields | drivers/fat32/directory.c:497-499 | a cluster number survives its two 16-bit halves, and name and attributes stay |
| Slots.MakeSlotFields | drivers/fat32/directory.c:279-292 | a new slot carries name, attributes, first cluster and size |
| Slots.NewFileBytes | drivers/fat32/directory.c:279-292 | the 32 bytes stored for a new file |
| Slots.SlotFormat | drivers/fat32/directory.c:191-227 | end, free, long-name, volume and directory marks bit by bit, and where cluster and size lie in a slot |
| Slots.FoundIsNamed | drivers/fat32/directory.c:170-236 | a scan finds the first slot before any end mark that is neither free nor a long name nor, for lookups, a volume label, and carries the name in whatever case; it fails exactly if there is none |
| Slots.CaseBlind | drivers/fat32/directory.c:173-217 | names that differ in case alone are found at the same slot of every directory |
| DirMaps.LookupIsMap | drivers/fat32/directory.c:170-236 | the scan finds a name exactly when a live slot carries it, and reports what the map of the live slots holds under it |
| DirMaps.InsertIsUpdate | drivers/fat32/directory.c:268-295 | filling the first reusable slot under an absent name inserts into the map |
| DirMaps.InsertExact | drivers/fat32/directory.c:268-295 | it keeps names unique exactly when the name as stored was absent |
| DirMaps.DeleteIsRemove | drivers/fat32/directory.c:339-342 | marking a slot as free removes its name from the map |
| DirMaps.ReplaceIsUpdate | drivers/fat32/directory.c:496-501 | new fields under the same name update the map |
| DirMaps.ScansAgree | drivers/fat32/directory.c:202-204 | deletion and update reach the slot a lookup finds exactly when no volume label of that name comes first |
| DirMaps.CreatedExact | drivers/fat32/directory.c:49-295 | an entry created under any name keeps names unique exactly when it is read as free or its name as stored is new |
| DirMaps.CreatedAnswers | drivers/fat32/directory.c:49-236 | a new entry answers to the name it was created under exactly when the name fits the 8.3 shape and does not start with byte 0xE5 |
| DirMaps.TruncationCollides | drivers/fat32/directory.c:63-81 | longer names without a dot that agree on eight bytes are stored under one key, which is not their own |
| Directories.Directory.FindEntry | drivers/fat32/directory.c:170-236 | finds the first live slot that carries the name up to case over the directory's chain, and reports its fields |
| Directories.Directory.FindFreeEntry | drivers/fat32/directory.c:238-266 | finds the first slot that is free or an end mark |
| Directories.Directory.CreateEntry | drivers/fat32/directory.c:268-295 | changes exactly that slot, or nothing when there is none |
| Directories.Directory.DeleteEntry | drivers/fat32/directory.c:297-351 | frees exactly the first slot of that name |
| Directories.Directory.UpdateEntry | drivers/fat32/directory.c:458-510 | changes size and first cluster of exactly the first slot of that name |
| LongNames.SlotChars | drivers/fat32/directory.c:20-30 | the characters put into a long-name slot are the ones taken out |
| LongNames.CharsFormat | drivers/fat32/directory.c:20-30 | from any slot: the low bytes of the units up to where each of the three parts meets a terminator or filler on its own |
| LongNames.OrderFormat | drivers/fat32/directory.c:121-130 | where a slot's characters go in the long name, and which slot starts one |
| LongNames.LongNameAnywhere | drivers/fat32/directory.c:99-160 | a name of 1 to 255 nonzero bytes, stored in reverse-ordered slots before its entry, is listed exactly, wherever it stands |
| LongNames.FreedIgnored | drivers/fat32/directory.c:114-116 | a freed slot anywhere, also between a long name and its entry, changes no listing |
| LongNames.LabelForgets | drivers/fat32/directory.c:135-138 | a volume label is not listed and drops what was collected of a long name |
| LongNames.ListIsLive | drivers/fat32/directory.c:99-160 | whatever long names there are, a listing is the live slots in order with attributes, first cluster and size, cut to the maximum |
| LongNames.ListIsMap | drivers/fat32/directory.c:99-160 | with room for all, a listing has one entry for every name of the directory's map and agrees with it |
| LongNames.ListShort | drivers/fat32/directory.c:99-160 | without long names it shows the live slots under their own names |
| Listings.ReadDir | drivers/fat32/directory.c:91-168 | the listing over the directory's chain is the one `LongNames.List` defines, cut to the maximum |
| Tokens.Tokenizer.Next | lib/string.c:93-125 | the next nonempty component, ended in place, and the rest stays to come |
| Paths.SplitPath | drivers/fat32/file.c:46-56 | splitting at the last slash is splitting at every slash and taking the last piece off |
| Paths.PathStart | drivers/fat32/file.c:40-88 | a path with a slash in front is the rest of it looked up from the root, any other one from the current directory |
| FileSystems.FileSystem.ParsePath | drivers/fat32/file.c:37-91 | directory and last name of a path equal the fold of lookups over its components, and it fails exactly when the fold does |
| Lookups.InsertKeepsPaths | drivers/fat32/directory.c:268-295 | a new entry disturbs no path that led somewhere |
| Lookups.UpdateKeepsPaths | drivers/fat32/directory.c:458-510 | new fields in a file's entry disturb no path |
| Soundness.RegrowKeeps | drivers/fat32/file.c:186-260 | growing, starting or giving back one held chain keeps the volume in order |
| Soundness.OriginKeeps | drivers/fat32/file.c:413-435 | any slot change keeps the volume in order after which every file entry comes from one of its own |
| Soundness.RemoveKeeps | drivers/fat32/file.c:393-411 | releasing a file's chain and deleting its slot keeps the volume in order |
| Soundness.RemovableChain | drivers/fat32/file.c:406-408 | the released chain is exactly the file's, and the free count grows by its length |
| Soundness.RemoveFrames | drivers/fat32/file.c:393-411 | every other file keeps its chain and its bytes through a deletion |
| Soundness.WriteKeeps | drivers/fat32/file.c:186-260 | writing through a handle keeps the volume in order |
| Handles.WroteFrames | drivers/fat32/file.c:186-260 | a write leaves chain and bytes of every other file as they were |
| Handles.WriteLinks | drivers/fat32/file.c:204-212 | a handle stays tied to its entry while it writes, also when it takes its first cluster |
| Handles.RecordKeeps | drivers/fat32/file.c:273-275 | recording size and first cluster updates the map and keeps the volume in order |
| Soundness.MoveExact | drivers/fat32/file.c:413-435 | copying a slot and freeing others keeps the volume in order exactly when names stay unique and not both slots keep the file's chain |
| Renames.RenameExact | drivers/fat32/file.c:413-435 | within a directory, to any name: names stay unique exactly when the copy shadows no entry, or is stored under the old name again and one of the two slots goes |
| Renames.RenameVolume | drivers/fat32/file.c:413-435 | within a directory or across, to any name, with volume labels in the way or not: the exact condition under which the volume stays in order |
| Renames.MovedMaps | drivers/fat32/file.c:425-434 | the entry leaves the old name and appears under the new one with the same attributes, cluster and size |
| FileSystems.FileSystem.CreateExact | drivers/fat32/file.c:336-391 | a new entry under any name keeps the whole volume in order exactly when it shadows no entry of its directory |
| FileSystems.FileSystem.CreateFile | drivers/fat32/file.c:336-350 | exactly when it succeeds, the one slot it fills, the name it inserts, and exactly when the volume stays in order |
| FileSystems.FileSystem.CreateDir | drivers/fat32/file.c:352-391 | the new directory holds "." and "..", the tree gains it, the free count drops by one even when the parent turns out full, and when exactly the volume stays in order |
| MakeDirs.NewDirSlots | drivers/fat32/file.c:370-383 | a new directory is the map from "." to itself and from ".." to its parent |
| MakeDirs.AdoptDir | drivers/fat32/file.c:365-390 | a chain nobody else holds may become a directory of the tree |
| FileSystems.FileSystem.Delete | drivers/fat32/file.c:393-411 | frees exactly the file's chain, removes exactly its name, keeps the volume in order |
| FileSystems.FileSystem.Rename | drivers/fat32/file.c:413-435 | exactly when it succeeds, the slots it leaves for any names, and exactly when the volume stays in order; for a storable, absent name it moves one entry |
| FileSystems.FileSystem.Open | drivers/fat32/file.c:93-130 | exactly when it succeeds, and every field of the handle it fills from the entry |
| FileSystems.FileSystem.Write | drivers/fat32/file.c:186-260 | keeps the volume in order and the handle tied |
| FileSystems.FileSystem.Close | drivers/fat32/file.c:263-281 | records a changed file in its entry, cleans the FAT cache, gives the handle up |
| Persistence.Store | drivers/fat32/file.c:186-350 | create, open, write, close: the path leads to a file with exactly these bytes; no handle stays open |
| Persistence.Load | drivers/fat32/file.c:93-184 | open, read, close delivers the bytes of any stored file; no handle stays open |
| Persistence.StoreThenLoad | drivers/fat32/file.c:93-350 | the round trip for every storable name and every content that fits |
| Formatted.MountEmpty | drivers/fat32/bpb.c:9-53 | the boot sector of a formatted volume parses, and the volume it describes meets the whole-volume invariant |
| Formatted.FirstFile | drivers/fat32/file.c:93-350 | on it, any storable name can be created and up to one cluster of bytes comes back from it |
| Copies.Copy | drivers/fat32/file.c:437-471 | for sources of any length: exactly when it succeeds, what the target then holds, and that this is the source's bytes exactly up to one cluster; no handle stays open, and a failed copy leaves FAT and target directory as they were |
| WorkingDirs.ChangedInStep | drivers/fat32/mount.c:93-147 | a successful change by names keeps path string and cluster in step whenever the string with all the names stays below 255 bytes, and then it is that string |
| WorkingDirs.JoinedFits | drivers/fat32/mount.c:128-139 | no name is left out of the path string exactly when the whole string stays below 255 bytes |
| Sessions.Session.AppendPath | drivers/fat32/mount.c:128-139 | a name is left out only where the string with it would reach 255 bytes |
| WorkingDirs.PathStringLeads | drivers/fat32/mount.c:93-147 | in step, a name behind the path string is looked up in the working directory, from wherever one is, exactly when the way there has no link to cluster 0 |
| Sessions.Session.LongAndShort | drivers/fat32/file.c:37-91 | so a name alone and behind the path string leads to the same slot |
| WorkingDirs.UpInStep | drivers/fat32/mount.c:64-87 | a change to ".." keeps path string and cluster in step exactly when the entry leads where the string without its last component does |
| WorkingDirs.UpInTree | drivers/fat32/mount.c:64-87 | where ".." always leads back to where a directory was entered from, a change to it keeps a path string that ends in an ordinary name in step |
| WorkingDirs.FailedChange | drivers/fat32/mount.c:53-148 | a failed change keeps the cluster, and exactly when it keeps the path string, for relative and absolute paths |
| WorkingDirs.FailedChangeStrays | drivers/fat32/mount.c:97-147 | the input: a missing name below the root empties the path string, and the next relative change builds one that need not lead to the cluster |
| WorkingDirs.ParentRestores | drivers/fat32/mount.c:72-83 | cutting off the last component undoes appending one exactly when the string with it stayed below 255 bytes |
| WorkingDirs.DownAndUp | drivers/fat32/mount.c:64-87 | into a child and back by "..": the cluster is restored, the path exactly when the string stayed below 255 bytes |
| Sessions.Session.ChangeDir | drivers/fat32/mount.c:53-148 | cluster and path string after every change, failed ones included; the volume stays in order except after ".." onto the entry of a file; paths that start with a slash go on meaning the same |
| Sessions.Session.MakeEnterLeave | drivers/fat32/mount.c:64-139 | the same for a directory just made by `fat32_create_dir` |
| Numbers.DecimalRoundTrip | lib/string.c:127-186 | reading the decimal string of a 32-bit number gives it back, overflowing exactly for the least one |
| Numbers.ReadsNumber | lib/string.c:127-148 | in any string blanks are skipped, one sign is taken, and the digits up to the first other character count |
| Numbers.TextEvaluates | lib/string.c:150-186 | in every base the characters are digits below the base that evaluate to the number, without leading zeros |
| Numbers.NegativeText | lib/string.c:150-186 | a negative number in another base than ten: no sign, and characters as far below '0' as the digits of its magnitude say |
| Numbers.Itoa | lib/string.c:150-186 | the digit loop and the in-place reversal leave that string |
| Numbers.Atoi | lib/string.c:127-148 | reads blanks, sign and digits without leaving the 32-bit range at any step |

## Left out

- Files, directories and paths are modelled on a device that works; only the FAT layer and the cluster transfers are proved under faults.
- `drivers/ata.c` and `drivers/block.c` are replaced by the abstract block device; `block_flush` does nothing there.
- Sector sizes other than 512 and clusters above 32 KiB are accepted by the parser and only there; every other operation assumes `Geometry.WellFormed`.
- Remounting: a volume has the geometry it was made with, and FAT copies are assumed to agree when it is mounted.
- `fat32_update_entry_size` and `fat32_update_entry_cluster` differ from `fat32_update_entry` only in the fields they store; nothing calls them in `drivers/fat32`.
- `fat32_tell`, `fat32_size`, `fat32_get_total_space`, `fat32_is_mounted` and the other getters read single fields; the handle fields `current_sector` and `entry_offset` are never used.
- Time stamps are the constants the driver stores and are not reported by lookups or listings; the FSInfo sector is never read.
- Fat.Volume.FreeChain: proved for devices that work, because a failing read can send the walk to the bad-cluster entry, which is outside the table.
- Fat.Volume.GetEntry: cluster numbers behind the last entry of the FAT are excluded; the driver would read past the FAT.
- Fat.Volume.SetEntry: the same, for writing.
- Fat.Volume.ReadCluster: numbers that are no cluster are excluded; `Geometry.EndMarkOutside` says where an end mark would lead.
- Fat.Volume.GetChainLength: as for freeing, and only where the walk reaches an end mark.
- Fat.Volume.WriteCluster: takes the bytes of the cluster rather than the caller's buffer, and no number that is not a cluster.
- Geometry.ClusterLbaRoundTrip: the geometry is a value of the volume, not fields of a global struct.
- Files.FileTable.Write: positions beyond 4 GiB, where the file position would wrap, are excluded, and so is a cursor on an end mark, where the bytes would not land in a cluster (`FileLaws.WriteAfterSeek`).
- Files.FileTable.WriteChain: the same.
- FileSystems.FileSystem.Write: the same.
- FileLaws.WriteThenRead: the same for its seek, and an empty file is written in its first cluster, which is exactly where it works (`WriteLaws.WriteFar`).
- Files.FileTable.Read: a cursor on an end mark, as a seek past the last cluster leaves it, is excluded while bytes are wanted; so are several handles on one file.
- Files.FileTable.ReadChain: the same.
- FileSystems.FileSystem.Delete: deleting directories and files that are open is excluded.
- FileSystems.FileSystem.CreateDir: the branch that gives the cluster back after a failed cluster write cannot occur on a working device.
- FileSystems.FileSystem.Close: a changed handle must still be tied to its entry, that is, its file was not deleted or renamed meanwhile.
- Copies.Copy: the source must not be open, the target's name must be storable, and no volume label may have it.
- Listings.ReadDir: long-name slots with an order number that would leave the 256-byte buffer are excluded, and listed entries are returned as a sequence.
- Tokens.Tokenizer.Next: `strtok` is modelled for the delimiter "/" only, the one its callers in the driver use.
- Numbers.Itoa: the least 32-bit number in base 10 is excluded, where its negation overflows.
- Numbers.Atoi: digit strings whose value leaves the 32-bit range are excluded, where the accumulator overflows.
- Strings are sequences of bytes without their NUL where the driver only reads them; the bounds of the 256-byte name buffers follow from the cut to 255 bytes.
- Checksums of long-name slots are never compared by the driver and play no role.
