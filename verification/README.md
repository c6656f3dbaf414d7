# GSENetwork: a model of the ledger and of what it is stored with

This project models the parts of the GSENetwork node on which its ledger rests, and
proves what they promise.  `dafny verify dfyconfig.toml` checks all of it.

* **RLP** (`Rlp`, `RlpReader`, `RlpInt`, `RlpStream`; Appendix B of the Ethereum Yellow Paper).
  `Rlp` has the recursive encoding and the strict reader; the encoding is a canonical
  bijection.  `RlpReader` has the loops and the index cache of `RLP`, `RlpInt` the integers, `RlpStream` the
  writer with its stack of open lists and back-patched headers; both refine the
  recursive form.
* **Merkle Patricia trie and Merkle root** (`HexPrefix`, `Trie`, `TrieAnswers`,
  `TrieEntries`, `TrieHash`, `TrieBytes`, `TrieStream`, `TrieRoot`, `Merkle`; Appendices C
  and D of the Yellow Paper).  The node tree made by splitting sorted ranges answers lookups as the map
  does, and equal roots mean equal maps; the streaming code emits that tree.  `Merkle`
  says exactly which lists share a root.
* **The LevelDB engine** (`DbFormat`, `Snapshots`, `Compaction`, `DbIter`, `LogFormat`,
  `LogReader`, `LogIntegrity`, `GroupCommit`, `GroupProtocol`, `GroupTheorems`, `GroupRooms`, `GroupWrite`,
  `WriteBatches`, `Durability`).
  Compaction changes no read that can still be asked for; the two-way iterator walks the
  map seen at its snapshot; a log cut at any byte gives back its whole records; and the
  writer queue is a state machine whose every interleaving serves each writer once, in
  order, with sequence numbers of its own.  `Durability` joins these: an acknowledged sync
  write is recovered from whatever a crash leaves of its log file.
* **The ledger** (`Ledger`, `Supply`, `Votes`, `LedgerRuns`, `Payments`, `Disk`, `CrashSafety`,
  `Repositories`, `Layers`, `Solidifying`, `Chain`, `Runs`, `ChainRuns`).  `Ledger` says
  what a transaction does to one flat world.  `Supply` accounts for every unit of money and
  `Votes` for every vote, `LedgerRuns` for both over whole runs; `Payments` says who pays
  and what else changes.  `Repositories`, `Layers`
  and `Chain` are the stack of caches over the database, proved to show the flat world at
  every layer.  `Disk` and `CrashSafety` have the writes of solidifying and what a cut of
  them leaves.  `Solidifying` is one call of the solidify loop, whether or not block states
  are missing, and `Runs` and `ChainRuns` any sequence of calls.
* **Slots and virtual machine** (`Slots`, `JumpTable`, `Words`, `VmStack`).

`Bytes`, `Lex` and `Sums` hold what the others share.  `Formats` spells out the byte formats
in numbers.

## Conventions

An exception is a value: `Throw`, `Thrown`, `None` or `ok == false`.  The `Empty...`
sentinels of the ledger are `None`.  Unsigned 64-bit arithmetic of balances and votes is
written out modulo 2^64, that of the virtual machine modulo 2^256; C++ division is
written out where operands may be negative.  Where bytes are counted, totals are required
to stay below 2^64, the range of `size_t`.

What is outside the model enters as a parameter: the hash (with the absence of collisions
among the nodes at hand as a hypothesis, never as a fact about all inputs), the checksum of
the log (a fold with an invertible mask), the test that no deeper level holds a key, the
answers of the file system, the states of blocks, and the block bonus.

Addresses, transaction ids and block ids are numbers standing for identities.  Block
numbers grow along the chain and block states are filed under their own numbers; that is a
hypothesis where a theorem says that no blocks account for what is on disk, and only there.

## Where the code does not do what one would expect

These are stated as lemmas beside the theorem that gives the exact condition.

* After an access to an RLP list has thrown, the cache is left pointing at the rest of the
  payload, and the item at the cached index can no longer be read (`StaleCache`, exactly
  when: `Index`).
* The comment on the access promises the null item for what is not a list; the code does
  not ask whether it is one, and reads the bytes of a string as items (`StringAccess`,
  `StringAccessExact`, `StringReadAsList`).
* An empty value stored at a key where other keys go on is the same as no value
  (`HiddenEntryExample`, `LookupFaithful`, `TrieRlpExact`).
* The Merkle root does not see the first bit of a digest, and doubling makes lists of
  different length share a root (`FirstBitExample`, `OddListShared`; exactly when:
  `SameLengthExact`, `SameDepthExact`, `AnyDepthExact`).
* A key that does not parse resets the scan of the compaction, so that a value behind a
  dropped deletion can come back (`ResurrectionExample`, `CompactionExact`).
* A type byte of 5 or 6 in a log is taken for the end of the file or a bad record, whose
  codes these are: 5 ends the read with the rest of the file unread (`TypeFiveExample`,
  exactly when: `ReadEndsExact`), and 6 is skipped without the report that other unknown
  types get (`TypeSixExample`, exactly when: `ForeignTypeExact`).
* A transfer from an account to itself adds its value to the balance
  (`SelfTransferExample`, `SendConservesExactly`); a candidate named again after votes counts
  twice in the votes and once in the entries (`RepeatedCandidateExample`,
  `DoubleEntryExact`).
* When a block state is missing, the solidify loop throws after it has committed the block,
  and the block stays the parent of the next one.  A later call commits that next block
  into a cache nobody writes to disk, writes its state and height, and takes the dirty flag
  down (`TwoCalls`).  Exactly when calls keep the views: `ViewsKeptExact`, `RunExact`;
  exactly when a flag that is down can be trusted: `RunCrashSafeExact`.
* Before genesis the slot of a timestamp is rounded up, and a producer can fill one slot
  twice (`BeforeGenesisExample`, `RecordGuardsExact`).
* The counter that numbers the items of a trie root has 32 bits, so that of a longer list
  only the last 2^32 items count (`FirstItemLost`, `RootsExact`).
* A schedule update in an earlier slot than some executed block lets a second block into
  that slot (`CollisionExample`, `UpdateSafeExact`).
* A writer without a batch asks for room to be made.  Behind another writer it joins that
  one's group, unless it asks for sync and the leader does not (`CompactionRequestJoins`),
  and is then completed without the room-making step having been taken for it
  (`CompactionRequestExample`, `CompactionRequestServed`).

## Model

| member | source | states |
|---|---|---|
| `Rlp.RoundTrip` | core/RLP.cpp:101-221 | Strict decoding of the encoding of an item tree gives the tree back if and only if its payload is shorter than 2^64 - 1 - 0x100, the limit the reader sets |
| `Rlp.Canonical` | core/RLP.cpp:101-221 | A byte string decodes strictly, at every level, to an item if and only if it is that item's encoding: one byte string for each item |
| `Rlp.PrefixFree` | core/RLP.cpp:289-342 | No encoding is a proper prefix of another, and where one ends is decided by the bytes alone |
| `Rlp.EncDecode` | core/RLP.cpp:152-208 | Whatever is accepted strictly re-encodes to the same bytes |
| `Rlp.DecodeEnc` | core/RLP.cpp:112-123 | Every item tree below the limit is accepted and decodes to itself, by induction over nested lists |
| `Rlp.EncSize` | core/include/core/RLP.h:336-339 | The size read off the front of any buffer is that of the encoding it starts with, whatever follows |
| `Formats.HeaderInNumbers` | core/RLP.cpp:289-342 | The headers of payloads of up to 65535 bytes, byte by byte |
| `Formats.EncInNumbers` | core/include/core/RLP.h:33-41 | Strings and lists of up to 255 bytes, byte by byte |
| `Rlp.StrictHeader` | core/RLP.cpp:37-54 | A buffer that passes the strict constructor is the minimal header of its payload followed by the payload |
| `RlpReader.ReadLength` | core/RLP.cpp:152-208 | The loop that reads a length with its four strictness checks computes the recursive length function, errors included |
| `RlpReader.Items` | core/RLP.cpp:210-221 | Counting by repeated cropping gives the number of items, 0 for what is not a list, and the exception a bad item gives |
| `RlpReader.ItemCountOfList` | core/RLP.cpp:210-221 | On the encoding of a list the count is the list's length |
| `RlpReader.NthOfList` | core/RLP.cpp:84-99 | The stateless walk gives exactly the encoding of item i |
| `RlpReader.NthPastEnd` | core/RLP.cpp:84-99 | The stateless walk gives the null item at every index past the end |
| `RlpReader.Reader.Index` | core/RLP.cpp:84-99 | After any earlier accesses in any order, the cached access returns what the stateless walk returns; the two exceptions are spelt out: an access at the cached index after a throw, and the index 2^64 - 1 on a fresh reader |
| `RlpReader.NeverStuck` | core/RLP.cpp:84-99 | On a well-formed list the cache is never left in the state after a throw, so the agreement holds for every sequence of accesses |
| `RlpReader.HugeIndexIsPastEnd` | core/include/core/RLP.h:344-347 | An index larger than the payload is past the end, so the start value of the cached index names no item |
| `RlpReader.StaleCache` | core/RLP.cpp:84-99 | A concrete list with a malformed second item: after the throw, asking again for the item that was fine throws too |
| `RlpReader.StringAccessExact` | core/RLP.cpp:84-99 | On a strict item that is no list, every index yields the null item if and only if the item is null or the empty string |
| `RlpReader.StringReadAsList` | core/RLP.cpp:84-99 | Otherwise the access yields at every index what it yields on the list with the same payload |
| `RlpReader.StringAccess` | core/include/core/RLP.h:122-125 | The string of the bytes 1, 2, 3 has an item 0 |
| `RlpInt.IntExact` | core/include/core/RLP.h:259-280 | A one-item byte string converts strictly to a number if and only if it is the encoding of that number's shortest form and the number fits: leading zeros and oversized numbers are refused |
| `RlpInt.EncOfInt` | core/RLP.cpp:125-150 | The encoding of every number is recognised as an integer, with the number's bytes as payload |
| `RlpStream.EmitIsPut` | core/RLP.cpp:223-342 | Announcing a list and appending its children one by one, at any depth, is the same as putting the finished list |
| `RlpStream.RLPStream.NoteAppended` | core/RLP.cpp:230-267 | Counting items off the list stack, with headers inserted by moving bytes, keeps the buffer equal to the encodings of everything finished or begun; it refuses exactly when more items come than were announced |
| `RlpStream.RLPStream.InsertListHeader` | core/RLP.cpp:239-262 | The payload is moved up and the minimal list header written into the gap, below and above 55 bytes |
| `RlpStream.RLPStream.AppendRaw` | core/RLP.cpp:223-228 | Appending encodings of a number of items puts those items |
| `RlpStream.RLPStream.Append` | core/RLP.cpp:289-308 | Appending bytes puts the string, trimmed of leading zeros when compact |
| `RlpStream.RLPStream.AppendInt` | core/RLP.cpp:310-333 | Appending a number puts the string of its minimal big-endian bytes |
| `RlpStream.RLPStream.AppendList` | core/RLP.cpp:269-277 | Announcing n items opens a list; announcing none puts the empty list |
| `RlpStream.RLPStream.AppendEncodedList` | core/RLP.cpp:279-287 | Appending ready-made encodings as a list puts that list |
| `RlpStream.RLPStream.PushCount` | core/RLP.cpp:335-342 | Writes the long-form header: base plus number of length bytes, then the length |
| `RlpStream.RLPStream.PushInt` | core/include/core/RLP.h:437-443 | The loop over bytes from the end writes the big-endian number |
| `RlpStream.Encode` | core/RLP.cpp:223-342 | Streaming a whole item tree into a new stream leaves exactly its recursive encoding |
| `HexPrefix.HexPrefixInverts` | trie/TrieBase.cpp:22-37 | Nibbles and leaf flag are recovered from the encoding, for odd and even lengths |
| `HexPrefix.HexPrefixInjective` | trie/TrieBase.cpp:22-37 | Equal encodings come from equal nibbles and equal flags |
| `Formats.HexInNumbers` | trie/TrieBase.cpp:22-38 | The encoding nibble by nibble: 0x00, 0x20, 0x10 or 0x30 first |
| `HexPrefix.EncodeVector` | trie/TrieBase.cpp:22-37 | The nibble-vector form, begin and negative end included, gives the one encoding |
| `HexPrefix.EncodePacked` | trie/TrieBase.cpp:39-58 | The packed-bytes form gives the same encoding of the same nibbles |
| `HexPrefix.EncodeConcat` | trie/TrieBase.cpp:60-90 | The two-part form gives the same encoding of the concatenated nibbles |
| `Trie.SlotsTile` | trie/Trie.cpp:91-111 | The sixteen slots of a range follow each other without gap or overlap and end where the range ends |
| `Trie.SlotExact` | trie/Trie.cpp:91-111 | An entry is in slot v if and only if its next nibble is v, so each entry is in exactly one slot |
| `Trie.SlotIsRange` | trie/Trie.cpp:91-111 | Each slot is again a sorted range, with a common prefix one nibble longer |
| `Trie.SlotSmaller` | trie/Trie.cpp:62-114 | At a branch every slot has fewer entries than the range, so the recursion ends |
| `TrieAnswers.LookupBuild` | trie/Trie.cpp:62-114 | Looking a key up in the node tree built by range splitting gives the answer expected of the range, at every depth of the recursion |
| `TrieAnswers.LookupFaithful` | trie/Trie.cpp:62-114 | A key is answered as in the input map if and only if it does not have an empty value at a point where other keys go on |
| `TrieEntries.EntriesBuild` | trie/Trie.cpp:62-114 | All entries but the hidden ones can be read back from the node tree |
| `TrieEntries.KeepBuild` | trie/Trie.cpp:62-114 | Leaving the hidden entries out of the map does not change the tree |
| `TrieEntries.SameTree` | trie/Trie.cpp:62-114 | Two maps have the same node tree if and only if they are the same but for hidden entries |
| `TrieHash.ItemInjective` | trie/Trie.cpp:116-127 | Different nodes have different items, inlined below 32 bytes or replaced by a hash, when the hash has no collision among their parts |
| `TrieHash.TrieRlpExact` | trie/Trie.cpp:130-141 | Two maps have the same root encoding if and only if they are the same but for hidden entries |
| `TrieHash.HiddenEntryExample` | trie/Trie.cpp:62-114 | A family of pairs of different maps with the same root encoding: one has an empty value at the empty key |
| `TrieHash.RootKeysPrefixFree` | trie/Trie.cpp:162-171 | The keys made from positions are prefix-free, so nothing is hidden in a list trie |
| `TrieStream.FindSharedPre` | trie/Trie.cpp:72-86 | The nested loops find the length of the prefix shared by the whole range |
| `TrieStream.SlotEnd` | trie/Trie.cpp:97-101 | The scan for the next slot stops at its first entry |
| `TrieStream.Hash256Aux` | trie/Trie.cpp:116-127 | Appends a node as itself or as its hash, by the length of its encoding |
| `TrieBytes.ChildBytes` | trie/Trie.cpp:114-127 | What stands for a child: its own bytes if they are fewer than 32, and otherwise 0xa0 and the 32 bytes of their hash |
| `TrieBytes.ChildInParent` | trie/Trie.cpp:114-127 | In the bytes of a node each child stands so, in one piece |
| `TrieBytes.ShortStandsInRoot` | trie/Trie.cpp:130-141 | Whatever hangs on the root by nodes of fewer than 32 bytes stands in the bytes of the root |
| `TrieBytes.BuildShape` | trie/Trie.cpp:62-112 | A leaf for one entry; an extension exactly when all keys go on with the same nibble, over a branch; a branch otherwise |
| `TrieBytes.BranchExample` | trie/Trie.cpp:93-127 | The root of two keys that part at once, with values of 20 bytes, byte by byte |
| `TrieBytes.ExtensionExample` | trie/Trie.cpp:84-127 | The root of two keys that part at the second nibble, byte by byte: extension, branch and leaves |
| `TrieStream.Hash256Rlp` | trie/Trie.cpp:62-114 | The mutually recursive streaming puts exactly the item of the node tree on the stream |
| `TrieStream.TrieRlp256` | trie/Trie.cpp:130-141 | The bytes returned are the root encoding of the map with its keys as nibbles |
| `TrieHash.TrieRootInjective` | trie/Trie.cpp:162-171 | If two maps of numbered items have the same root, and the hash has no collision on their nodes, the lists of items are the same |
| `TrieRoot.ComputeTrieRoot` | trie/Trie.cpp:150-159 | The loop numbers the items in an ordered map and returns the hash of the root encoding of that map |
| `TrieRoot.RootMapIs` | trie/Trie.cpp:152-156 | Every list has such a map: under each number it holds the last item that got it, and nothing else; the 32-bit counter wraps |
| `TrieRoot.KeysInNumbers` | trie/Trie.cpp:155-155 | The keys of the first 256 items, byte by byte |
| `TrieRoot.LatestIsAll` | trie/Trie.cpp:153-155 | Up to 2^32 items the map holds the whole list |
| `TrieRoot.PlacedFind` | trie/Trie.cpp:155-155 | Assignment to a key of the map changes what that key has and nothing else |
| `TrieRoot.PlacedSorted` | trie/Trie.cpp:155-155 | Assignment to a key keeps the map in order |
| `TrieRoot.FirstItemLost` | trie/Trie.cpp:153-155 | Two lists of 2^32 + 1 items that differ in the first have the same root, whatever the hash |
| `TrieRoot.RootsExact` | trie/Trie.cpp:150-159 | Two lists have the same trie root if and only if their maps hold the same items, for lists of up to 2^32 items if and only if they are the same list, when the hash has no collision on the nodes of their tries |
| `Merkle.Halve` | trie/Trie.cpp:49-50 | Overwriting the vector in place gives the next level: no digest is overwritten before it is read |
| `Merkle.ComputeRoot` | trie/Trie.cpp:39-55 | The loop returns the root of the tree, and the zero digest for the empty list |
| `Merkle.RootOfTwo` | trie/include/trie/Trie.h:17-20 | The root of two digests: the hash of the first with its first bit cleared and the second with it set |
| `Merkle.RootOfThree` | trie/Trie.cpp:43-52 | The root of three digests, spelt out |
| `Merkle.PathsReachRoot` | trie/Trie.cpp:39-55 | For every leaf the digests beside its way up recompute the root |
| `Merkle.SameDepthExact` | trie/Trie.cpp:11-26 | Without a collision in 255 bits, two lists of the same depth have the same root if and only if the full trees over them, doubled leaves included, have the same leaves but for first bits, which marking overwrites |
| `Merkle.SameLengthExact` | trie/include/trie/Trie.h:17-20 | Without such a collision, equally long lists have the same root if and only if they are equal but for first bits |
| `Merkle.AnyDepthExact` | trie/Trie.cpp:39-55 | Lists of different depth have the same root if and only if the shorter one and the level of the longer one at its depth have the same full tree |
| `Merkle.SpotIsSelf` | trie/Trie.cpp:45-47 | In the full tree that the doubling makes of a list, the list itself comes first |
| `Merkle.OddListShared` | trie/Trie.cpp:45-47 | Whatever the hash, an odd list and the same list with its last digest twice have the same root |
| `Merkle.FirstBitExample` | trie/Trie.cpp:12-26 | Two lists of two digests that differ in the first bit of one have the same root, whatever the hash |
| `DbFormat.ParseExact` | database/leveldb/db/dbformat.h:166-176 | Parsing an internal key succeeds with exactly the key that was appended, for sequence numbers up to 2^56 - 1, and on nothing else |
| `Formats.KeyInNumbers` | database/leveldb/db/dbformat.cc:12-21 | The bytes of an internal key: user key, type 1 or 0, sequence number lowest byte first |
| `Formats.ReadIsNewest` | database/leveldb/db/memtable.cc:108-138 | A read gives the visible entry with the highest tag, and nothing if none is visible |
| `DbFormat.CompareMatches` | database/leveldb/db/dbformat.cc:50-66 | Comparing the bytes orders by user key, then by decreasing sequence number and type |
| `DbFormat.ParseOfEntry` | database/leveldb/db/dbformat.cc:12-21 | What the packed tag of an entry parses to, and when it does not parse |
| `Snapshots.SnapshotList.New` | database/leveldb/db/snapshot.h:51-64 | Relinking the ring appends the snapshot at the end and keeps the numbers in order |
| `Snapshots.SnapshotList.Delete` | database/leveldb/db/snapshot.h:73-80 | Relinking the ring removes exactly that snapshot |
| `Snapshots.SnapshotList.Oldest` | database/leveldb/db/snapshot.h:47-47 | The snapshot after the head has the smallest number in the list |
| `Snapshots.SnapshotSource.GetSnapshot` | database/leveldb/db/db_impl.cc:1184-1187 | A new snapshot has the last sequence number |
| `Snapshots.SnapshotSource.ReleaseSnapshot` | database/leveldb/db/db_impl.cc:1189-1192 | The other snapshots stay |
| `Snapshots.SnapshotSource.SmallestSnapshot` | database/leveldb/db/db_impl.cc:906-910 | The number the compaction uses is at or below every live snapshot and the last sequence number |
| `Compaction.DoCompactionWork` | database/leveldb/db/db_impl.cc:893-1020 | The loop over the merged input writes exactly the kept entries, in order, into non-empty outputs; an output ends where the size or the overlap test asks for it, or with the input, and nowhere else |
| `Compaction.KeptExact` | database/leveldb/db/db_impl.cc:935-979 | Which entries of any sorted input are dropped: of those that parse, exactly the ones right behind an entry of the same key at or below the smallest snapshot, and the deletions at or below it of keys that no deeper level has |
| `Compaction.KeptNewest` | database/leveldb/db/db_impl.cc:955-979 | When every key parses: everything above the smallest snapshot is kept, and of a key's entries at or below it the newest alone, unless that is a deletion of a key that no deeper level has |
| `Compaction.AtMostOneKept` | database/leveldb/db/db_impl.cc:962-964 | No second entry of a key at or below the smallest snapshot is kept |
| `Compaction.OverwrittenExample` | database/leveldb/db/db_impl.cc:962-978 | Of two values of one key at sequences 9 and 5, below a smallest snapshot of 100, the first alone is kept |
| `Compaction.CompactedRead` | database/leveldb/db/db_impl.cc:935-979 | For every key and every snapshot at or above the smallest, what a read of the kept entries gives against a read of all entries, case by case |
| `Compaction.CompactionPreservesReads` | database/leveldb/db/db_impl.cc:906-979 | Reads at or above the smallest snapshot are the same over kept entries and deeper levels as over all entries and deeper levels, whatever lies above |
| `Compaction.CompactionExact` | database/leveldb/db/db_impl.cc:935-979 | Reads are preserved if and only if no deletion is dropped in front of a key that does not parse followed by an older value |
| `Compaction.AllKeysParse` | database/leveldb/db/db_impl.cc:945-950 | When every key parses, no deletion can be dropped that way |
| `Compaction.ResurrectionExample` | database/leveldb/db/db_impl.cc:945-970 | A concrete run: a dropped deletion, a key that does not parse, and a value that comes back |
| `Compaction.LastSequenceDropsAll` | database/leveldb/db/db_impl.cc:959-965 | With a smallest snapshot of 2^56 - 1 every entry is dropped, so the bound on sequence numbers is needed |
| `Compaction.KeptSorted` | database/leveldb/db/db_impl.cc:935-979 | The kept entries are still sorted |
| `Compaction.Compact` | database/leveldb/db/db_impl.cc:893-1020 | With the smallest snapshot taken from the list and any input, every live snapshot and every later read sees what it saw before, except at a key that a dropped deletion and a key that does not parse bring back; and at such a key, with nothing newer, some read differs |
| `DbIter.DBIter.Next` | database/leveldb/db/db_iter.cc:146-171 | Lands on the least live key above the current one with its newest visible value, or is invalid if there is none, in either direction |
| `DbIter.DBIter.Prev` | database/leveldb/db/db_iter.cc:205-230 | Lands on the greatest live key below the current one, or is invalid if there is none, in either direction |
| `DbIter.DBIter.FindNextUserEntry` | database/leveldb/db/db_iter.cc:173-203 | The forward scan skips hidden and deleted entries to the least live key in bound |
| `DbIter.DBIter.FindPrevUserEntry` | database/leveldb/db/db_iter.cc:232-272 | The backward scan takes the last version it sees of the greatest live key in bound |
| `DbIter.DBIter.Seek` | database/leveldb/db/db_iter.cc:274-286 | Lands on the least live key at or after the target |
| `DbIter.DBIter.SeekToFirst` | database/leveldb/db/db_iter.cc:288-297 | Lands on the least live key |
| `DbIter.DBIter.SeekToLast` | database/leveldb/db/db_iter.cc:299-304 | Lands on the greatest live key |
| `DbIter.PrevUndoesNext` | database/leveldb/db/db_iter.cc:146-230 | Stepping forward and back returns to the same key |
| `DbIter.GetAll` | database/Database.cpp:66-76 | Iterating from first to end lists every live key once, in order, with its value |
| `LogFormat.LogWriter.EmitPhysicalRecord` | database/leveldb/db/log_writer.cc:84-109 | Appends checksum, length, type and payload |
| `Formats.PhysicalInNumbers` | database/leveldb/db/log_writer.cc:85-100 | The bytes of a physical record |
| `Formats.CutInNumbers` | database/leveldb/db/log_writer.cc:36-83 | Where a record is cut, in bytes of a block of 32768, and of which types the pieces are |
| `LogFormat.LogWriter.AddRecord` | database/leveldb/db/log_writer.cc:36-82 | The file is the layout of the records written: fragments that fill blocks, and zero trailers where no header fits |
| `LogFormat.LogSnoc` | database/leveldb/db/log_writer.cc:36-82 | The layout of one more record is added at the end and changes nothing before it |
| `LogReader.Reader.ReadPhysicalRecord` | database/leveldb/db/log_reader.cc:194-276 | Refilling and parsing read one physical record, or the kind of failure, and leave the rest of the block |
| `LogIntegrity.ParseExact` | database/leveldb/db/log_reader.cc:220-275 | What becomes of a header and what follows it, case by case: with checksums a stored checksum other than that of type and payload gives a bad record, one report and the rest of the block dropped |
| `LogIntegrity.PhysicalIntact` | database/leveldb/db/log_reader.cc:194-276 | Whatever the file holds, a physical record returned stands in it whole and, with checksums, under its own checksum |
| `LogIntegrity.RecordIntact` | database/leveldb/db/log_reader.cc:59-177 | Whatever the file holds, a record returned is put together from such physical records, in order, of types 1 or 2, 3, ..., 3, 4 |
| `LogIntegrity.DamagedExample` | database/leveldb/db/log_reader.cc:248-262 | A file with one record under a wrong checksum reads as empty, with one report |
| `LogReader.Reader.ReadNext` | database/leveldb/db/log_reader.cc:59-177 | Fragments are put together to the next whole record, with what is reported on the way |
| `LogReader.ForeignTypeExact` | database/leveldb/db/log_reader.cc:147-174 | A physical record of a type other than 1 to 4 is reported if and only if its type is neither 5 nor 6, or it is 6 inside a fragmented record; 5 ends the read and every other goes on, from exactly this state and without the fragments collected |
| `LogReader.ReadEndsExact` | database/leveldb/db/log_reader.cc:59-177 | In any file a call returns no record if and only if the last physical record it read was the end of the file, with every byte read, or one of type 5, with the rest unread |
| `LogReader.ReadFile` | database/leveldb/db/db_impl.cc:418-419 | Reading any file to the end returns the records of repeated calls and stops with every byte read or at a record of type 5 |
| `LogReader.TypeFiveExample` | database/leveldb/db/log_reader.cc:147-154 | A file with a record of type 5 and a whole record behind it reads as empty, and nothing is reported |
| `LogReader.TypeSixExample` | database/leveldb/db/log_reader.cc:156-162 | With type 6 instead, that record is skipped without a report and the whole record behind it returned |
| `LogReader.PhysicalSynced` | database/leveldb/db/log_reader.cc:194-276 | At any point of a log cut anywhere, the next physical record is read whole or the end is reached, and nothing is reported |
| `LogReader.RecordSynced` | database/leveldb/db/log_reader.cc:59-177 | A record split over any number of blocks is read back whole, or not at all if its last fragment is cut |
| `LogReader.RecoverLog` | database/leveldb/db/log_reader.cc:59-276 | Reading any byte-prefix of a log returns exactly the records that lie wholly inside it, in order, and reports no corruption |
| `LogReader.WriteThenRead` | database/leveldb/db/log_writer.cc:36-109 | Reading the whole file gives back all records, empty ones included |
| `LogReader.RecordSurvives` | database/leveldb/db/log_reader.cc:59-276 | Each record is read back, in its place, from every cut of the log behind it |
| `GroupCommit.BuildBatchGroup` | database/leveldb/db/db_impl.cc:1278-1324 | The loop over the queue finds the largest group the front writer may lead, and appends its batches in queue order |
| `GroupCommit.GroupJoin` | database/leveldb/db/db_impl.cc:1298-1321 | Whether one more writer may join depends on its sync flag and on the total size, a writer without a batch always fitting |
| `GroupCommit.GroupLimit` | database/leveldb/db/db_impl.cc:1287-1293 | In bytes: behind a leader of up to 131072 a group may grow by 131072, and behind a larger one to 1048576 in all |
| `GroupCommit.CompactionRequestJoins` | database/leveldb/db/db_impl.cc:1298-1321 | A writer without a batch joins the group before it if and only if it does not ask for sync or the leader does too, whatever the sizes, and adds nothing to it |
| `GroupWrite.DBImpl.Enter` | database/leveldb/db/db_impl.cc:1203-1213 | Entering the queue is one step of the protocol; a writer alone in it leads at once |
| `GroupWrite.DBImpl.WakeUp` | database/leveldb/db/db_impl.cc:1211-1216 | A woken writer returns if done, leads if at the front, and sleeps again otherwise |
| `GroupWrite.DBImpl.BeginWrite` | database/leveldb/db/db_impl.cc:1218-1226 | From room to log: the group is fixed and takes the next sequence numbers, or the writer leaves with the error |
| `GroupWrite.DBImpl.LogWritten` | database/leveldb/db/db_impl.cc:1232-1235 | The record is in the log, or not, and sync, insertion or the end is next |
| `GroupWrite.DBImpl.SyncDone` | database/leveldb/db/db_impl.cc:1235-1240 | After a sync the records of the log file are on disk; a failed one ends the group with its status |
| `GroupWrite.DBImpl.Inserted` | database/leveldb/db/db_impl.cc:1241-1243 | The memtable takes the operations under their numbers |
| `GroupWrite.DBImpl.FinishWrite` | database/leveldb/db/db_impl.cc:1244-1274 | Back under the lock: error and last sequence number are recorded and the group leaves the queue |
| `GroupWrite.DBImpl.PopUntil` | database/leveldb/db/db_impl.cc:1257-1266 | The loop completes and signals every writer of the group but the leader, and no other |
| `GroupWrite.DBImpl.PopGroup` | database/leveldb/db/db_impl.cc:1257-1271 | The group leaves the queue and the new front is signalled |
| `GroupProtocol.Keeps` | database/leveldb/db/db_impl.cc:1203-1274 | Every step of every writer keeps the protocol's invariant |
| `GroupProtocol.RunKeeps` | database/leveldb/db/db_impl.cc:1203-1274 | The invariant holds after any interleaving of steps |
| `GroupTheorems.OneLeader` | database/leveldb/db/db_impl.cc:1228-1231 | At most one writer makes room or logs at a time, and it is the front of the queue |
| `GroupTheorems.NoLostWakeup` | database/leveldb/db/db_impl.cc:1211-1213 | A sleeping writer is neither done nor at the front |
| `GroupTheorems.NoDeadlock` | database/leveldb/db/db_impl.cc:1257-1272 | While a writer is unserved the front writer can take a step |
| `GroupRooms.FrontSteps` | database/leveldb/db/db_impl.cc:1218-1272 | When the system calls succeed, a step of the front writer takes it nearer to the end, or its group leaves the queue |
| `GroupRooms.CanBeServed` | database/leveldb/db/db_impl.cc:1203-1274 | From every state any queued writer can be served within six steps for each writer up to it |
| `GroupRooms.CanReturn` | database/leveldb/db/db_impl.cc:1203-1274 | From every reachable state a bounded run makes any given writer return |
| `GroupTheorems.ServedReturns` | database/leveldb/db/db_impl.cc:1261-1265 | A writer whose group has been served has returned or can return at once |
| `GroupTheorems.CompletedIffServed` | database/leveldb/db/db_impl.cc:1257-1267 | A writer is completed exactly when it has left the queue in some group |
| `GroupTheorems.ServedOnce` | database/leveldb/db/db_impl.cc:1257-1267 | No writer is served by two groups |
| `GroupTheorems.LeadersStatus` | database/leveldb/db/db_impl.cc:1261-1263 | Every member of a group is completed with its leader's status |
| `GroupTheorems.CompletedForGood` | database/leveldb/db/db_impl.cc:1214-1216 | A completed writer keeps its status and a returned one never acts again, in every continuation |
| `GroupTheorems.SyncLedBySync` | database/leveldb/db/db_impl.cc:1300-1303 | A sync writer is never served by a non-sync leader |
| `GroupTheorems.RangesInQueueOrder` | database/leveldb/db/db_impl.cc:1223-1224 | Writers' ranges of sequence numbers are disjoint and in queue order |
| `GroupTheorems.EverySequenceUsed` | database/leveldb/db/db_impl.cc:1254-1254 | No number is skipped: each one handed out belongs to an operation of a writer, even after failures |
| `GroupTheorems.RecordInLog` | database/leveldb/db/db_impl.cc:1232-1233 | Records of groups are in the log in the order of the groups, hence in queue order |
| `GroupTheorems.LogOnlyGroups` | database/leveldb/db/db_impl.cc:1232-1233 | In every reachable state each record in the log is that of a group served, at that group's place, or as the last that of the group being served |
| `GroupTheorems.AcknowledgedWrite` | database/leveldb/db/db_impl.cc:1230-1243 | What Ok means: the operations are in the log in one piece and in the memtable under their own numbers, and with sync the record is on disk |
| `WriteBatches.EncodeVarint32` | database/leveldb/util/coding.cc:47-73 | The five cases write seven bits a byte, lowest first |
| `WriteBatches.ReadVarint32` | database/leveldb/util/coding.cc:112-129 | The loop reads at most five bytes, cuts the number to 32 bits, and fails exactly when it does not end |
| `WriteBatches.VarintRoundTrip` | database/leveldb/util/coding.cc:47-129 | Every 32-bit number reads back, whatever follows it |
| `WriteBatches.OpRoundTrip` | database/leveldb/db/write_batch.cc:102-113 | Every operation reads back, whatever follows it |
| `WriteBatches.ContentsRoundTrip` | database/leveldb/db/write_batch.cc:46-96 | From the bytes of a batch come its sequence number, its count and exactly its operations |
| `WriteBatches.ContentsInjective` | database/leveldb/db/write_batch.cc:5-14 | Different batches have different bytes |
| `Formats.VarintRefused` | database/leveldb/util/coding.cc:112-129 | A length that does not end within five bytes, or is cut off, is refused |
| `Formats.UnknownTagStops` | database/leveldb/db/write_batch.cc:54-74 | A tag other than 0 and 1 stops the reading of a batch behind the operations before it |
| `Formats.BatchExample` | database/leveldb/db/write_batch.cc:5-14 | A batch of a put and a delete, byte by byte |
| `WriteBatches.WriteBatch.AddOp` | database/leveldb/db/write_batch.cc:102-113 | Adding an operation keeps the bytes those of the batch with it at the end |
| `WriteBatches.WriteBatch.Append` | database/leveldb/db/write_batch.cc:145-149 | Appending a batch keeps the bytes those of both in order |
| `WriteBatches.WriteBatch.Iterate` | database/leveldb/db/write_batch.cc:46-80 | On any bytes the loop hands out the operations up to a malformed one, and succeeds if and only if there is none and the count is right |
| `Durability.FilesRun` | database/leveldb/db/db_impl.cc:1235-1240 | In every run the log files follow each other, and in each what has been synced is a beginning |
| `Durability.DurableExact` | database/leveldb/db/db_impl.cc:1235-1240 | A record is on disk if and only if a sync succeeded while it was in the present log file |
| `Durability.RecoverLogFile` | database/leveldb/db/db_impl.cc:412-431 | Recovery puts into the memtable the operations of every record it reads, under consecutive numbers, and drops records too short to be batches |
| `Durability.DurableRecord` | database/leveldb/db/log_reader.cc:59-276 | A synced record is read back in its place from whatever a crash leaves of its file behind the synced part |
| `Durability.DurableWrite` | database/leveldb/db/db_impl.cc:1230-1243 | End to end: in every run a sync write told Ok is in a log file from whose every cut behind the synced part recovery reads its record and puts each of its operations into the memtable under its own number |
| `GroupTheorems.SyncErrorFreezes` | database/leveldb/db/db_impl.cc:1245-1250 | A failed sync leaves an error recorded and nobody logging |
| `GroupTheorems.FrozenForGood` | database/leveldb/db/db_impl.cc:1330-1340 | From then on, in every continuation, nothing is logged or inserted and no number is taken |
| `GroupRooms.RoomMadeByFirst` | database/leveldb/db/db_impl.cc:1218-1220 | In every run a served writer went through the room-making step if and only if it was the first of its group |
| `GroupRooms.CompactionRequestServed` | database/leveldb/db/db_impl.cc:1218-1221 | A served request for a compaction was alone in its group and had room made, or was led by a writer with a batch, with sync if it asked for it, and had none made |
| `GroupRooms.CompactionRequestExample` | database/leveldb/db/db_impl.cc:1298-1321 | A run in which a request for a compaction behind a write returns with Ok and no room was ever made for it |
| `Supply.SendTotal` | runtime/storage/Repository.cpp:115-137 | A transfer keeps the sum of balances, but for one from an account to itself, which adds its value |
| `Supply.SendConservesExactly` | runtime/storage/Repository.cpp:115-137 | The sum is kept if and only if sender and recipient differ or nothing is sent |
| `Supply.SelfTransferExample` | runtime/storage/Repository.cpp:115-137 | One coin sent by an account to itself becomes two |
| `Supply.BurnTotal` | runtime/storage/Repository.cpp:139-152 | Burning takes exactly the amount |
| `Supply.BonusTotal` | runtime/storage/Repository.cpp:154-163 | The bonus is added exactly when the balance does not wrap |
| `Supply.TransactionTotal` | runtime/common/Runtime.cpp:26-33 | What any one transaction does to the sum and to the number of producers |
| `Supply.BlockTotal` | chain/BlockChain.cpp:189-211 | The account of any block, self-transfers and wrapping bonus included, to the last unit |
| `Supply.SupplyConserved` | chain/BlockChain.cpp:189-211 | Without self-transfers and below 2^64 the sum changes by the bonus less 500000 per handled transaction less 1024000000 per new producer, and no balance wraps |
| `Supply.FeesCount` | config/include/config/Constant.h:60-67 | The fees are 500000 for each transaction that has a handler |
| `Votes.ClearKeeps` | runtime/storage/Repository.cpp:265-286 | Clearing keeps the double entry and leaves the voter without candidates |
| `Votes.ClearSucceeds` | runtime/storage/Repository.cpp:273-281 | Clearing never throws for a voter in double entry |
| `Votes.VoteCheckExact` | runtime/storage/Repository.cpp:302-305 | The unsigned check lets a vote through if and only if the balance covers all votes, when amounts do not wrap |
| `Votes.VoteKeeps` | runtime/storage/Repository.cpp:288-311 | One vote for a candidate that had none from the voter keeps the double entry |
| `Votes.VoteTransactionKeeps` | runtime/action/Vote.cpp:15-27 | A vote transaction that repeats no candidate after votes, with amounts that do not wrap, keeps the double entry, and afterwards votes times 10^6 is at most the balance |
| `Votes.DoubleEntryExact` | runtime/action/Vote.cpp:15-27 | From double entry before, a vote transaction leaves double entry if and only if its ballot repeats no candidate after an entry with votes |
| `Votes.RepeatedCandidateExample` | core/Account.cpp:129-139 | A ballot of two votes and then one for the same candidate: both sides have three votes and record one |
| `Votes.VotesAddUpExactly` | core/Account.cpp:129-139 | The same condition for the account alone, whatever the state before |
| `Votes.RunKeeps` | runtime/correlator/Correlation.cpp:41-46 | Over any run of transactions with such ballots the double entry holds |
| `Votes.NoUnderflow` | core/Producer.cpp:135-142 | While a producer's votes fit in 64 bits they are its starting votes plus the sum over its voters, and erasing never underflows |
| `Votes.EraseVoterAddsUp` | core/Producer.cpp:129-142 | Erasing a voter takes its amount from votes and from the voters' sum alike, in 64-bit arithmetic |
| `Votes.BlockKeeps` | chain/BlockChain.cpp:189-211 | And over a whole block with its bonus |
| `Votes.LostExact` | core/Account.cpp:129-133 | What a repeated candidate overwrites, and when it is nothing |
| `LedgerRuns.RunBalanced` | chain/BlockChain.cpp:168-253 | In every world of every run of executed, cancelled and solidified blocks, votes are in double entry and balances fit |
| `LedgerRuns.RunExplained` | chain/BlockChain.cpp:168-253 | In every run, each world on disk or in memory is what the blocks behind it, cancelled ones left out, make of the first world one after the other |
| `LedgerRuns.RunAccount` | chain/BlockChain.cpp:189-211 | The account of every world of every run: first total, bonuses and what self-transfers made up, less fees, cost of producers and 2^64 for each bonus that wrapped |
| `LedgerRuns.RunSupply` | chain/BlockChain.cpp:189-211 | Without self-transfers, while first total and bonuses stay below 2^64: first total and bonuses less fees and cost of producers, in every world of every run |
| `Repositories.Repository.GetAccount` | runtime/storage/Repository.cpp:21-55 | Reading through caches, parents and database gives the flat overlay's answer and leaves it in the repository's own cache, and changes no repository's view |
| `Repositories.Repository.GetProducer` | runtime/storage/Repository.cpp:165-172 | The same for producers |
| `Repositories.Repository.GetTransaction` | runtime/storage/Repository.cpp:204-229 | The same for transactions |
| `Repositories.Repository.GetProducerList` | runtime/storage/Repository.cpp:174-191 | The list built from the bottom up is that of the flat overlay |
| `Repositories.Repository.PutAccount` | runtime/storage/Repository.cpp:104-113 | Writing changes the top view at one key and no view below |
| `Repositories.Repository.Transfer` | runtime/storage/Repository.cpp:115-137 | The method does to the top view what the transfer function does, or throws exactly when it does |
| `Payments.SendExact` | runtime/storage/Repository.cpp:115-137 | Between two parties: it throws exactly when the sender is missing or has less than the value or the recipient overflows; otherwise the sender has the value less and the recipient more, and nothing else changes |
| `Payments.SelfSendExact` | runtime/storage/Repository.cpp:115-137 | The same for a transfer to oneself, which adds the value |
| `Payments.TransferExact` | runtime/action/Transfer.cpp:13-21 | The sender pays the value and 500000, the recipient gets the value, and nothing else changes; when it throws |
| `Payments.BurnExact` | runtime/storage/Repository.cpp:139-152 | Who pays when an amount is burnt, and when it throws |
| `Payments.BonusExact` | runtime/storage/Repository.cpp:154-163 | Who gets the bonus, and that it throws only for a missing account |
| `Payments.BeenProducerExact` | runtime/action/BeenProducer.cpp:14-29 | The sender pays 500000, and 1024000000 more for a new entry without votes; when it throws |
| `Payments.VoteExact` | runtime/action/Vote.cpp:15-27 | A vote goes through if and only if the sender can pay 500000, every candidate is a producer, and what is left covers a million for each vote |
| `Payments.VoteEffect` | runtime/action/Vote.cpp:15-27 | The sender pays the fee alone and has given what its ballot says; no other account and no record of another voter changes |
| `Payments.BallotAt` | core/Account.cpp:129-139 | Of several entries for a candidate the last one is recorded |
| `Payments.AllInOrder` | runtime/correlator/Correlation.cpp:41-46 | Transactions are executed from the first to the last, up to the first exception |
| `Payments.BlockTransactions` | runtime/common/Runtime.cpp:26-33 | After a block exactly its transactions are known besides those that were |
| `Payments.TransactionStored` | runtime/common/Runtime.cpp:26-33 | A transaction of an executed block can be read by its id, if no later one of the block has it |
| `Payments.BlockOnce` | chain/BlockChain.cpp:172-177 | A block with transactions that has been executed is refused when it comes again |
| `Payments.RunNoReplay` | chain/BlockChain.cpp:172-177 | In every world of every run no transaction has been executed in two of the blocks behind it |
| `Repositories.Repository.BurnFrom` | runtime/storage/Repository.cpp:139-152 | The same for burning |
| `Repositories.Repository.BonusTo` | runtime/storage/Repository.cpp:154-163 | The same for the bonus |
| `Repositories.Repository.ClearVotes` | runtime/storage/Repository.cpp:265-286 | The loop over the candidates, in any order, clears the voter from all of them, or throws exactly when one is missing |
| `Repositories.Repository.IncreaseVote` | runtime/storage/Repository.cpp:288-311 | The same for one vote |
| `Repositories.Repository.ExecuteTransfer` | runtime/action/Transfer.cpp:13-21 | Fee and transfer, or the exception of the first that fails |
| `Repositories.Repository.ExecuteVote` | runtime/action/Vote.cpp:15-27 | Clear, fee and the ballot in order, up to the first exception |
| `Repositories.Repository.ExecuteBeenProducer` | runtime/action/BeenProducer.cpp:14-29 | Fee, and for a new producer the cost and its entry with no votes |
| `Repositories.Repository.ExecuteTransaction` | runtime/common/Runtime.cpp:26-33 | The handler of the transaction's type, if it has one, and then the transaction's own entry |
| `Repositories.Repository.ExecuteAll` | runtime/correlator/Correlation.cpp:41-46 | All transactions of a block in turn |
| `Repositories.Repository.Commit` | runtime/storage/Repository.cpp:313-320 | With a parent the cache is laid over the parent's; without one, writes in any order lay it over the database and add the block to both block stores |
| `Layers.LinkedParents` | chain/BlockChain.cpp:106-124 | Only the bottom repository lacks a parent, and every other has the one below it |
| `Layers.LayersDetach` | chain/BlockChain.cpp:571-573 | Laying the bottom cache on the base changes no view above it |
| `Layers.CommitIntoParent` | runtime/storage/Repository.cpp:42-46 | A cache committed into its parent's leaves every view from itself up as it was |
| `Layers.CoveredFrom` | runtime/storage/Repository.cpp:21-55 | Two bases give the same views from some layer up if and only if the caches below that layer set every key in which the bases differ |
| `Chain.BlockChain.AddMemoryItem` | chain/BlockChain.cpp:106-124 | A pushed repository sees what the one below it sees |
| `Chain.BlockChain.CancelMemoryItem` | chain/BlockChain.cpp:126-130 | Cancelling removes the top view and nothing else |
| `Chain.BlockChain.IsExistInRepo` | chain/BlockChain.cpp:660-682 | Whether the newest view has a transaction |
| `Chain.BlockChain.ProcessBlock` | chain/BlockChain.cpp:168-253 | A block that executes adds the world its transactions and bonus make; one that throws leaves every view as it was |
| `Chain.BlockChain.WriteFront` | chain/BlockChain.cpp:551-569 | All writes of one round, in order: with a parent left behind the block goes into the parent's cache and not to disk; without its state nothing follows the commit and the flag stays up |
| `Chain.BlockChain.SolidifyFront` | chain/BlockChain.cpp:551-573 | One round in any state, the block state there or missing: queue, parents left behind, caches, disk, and what every remaining block sees |
| `Chain.BlockChain.OnSolidifiable` | chain/BlockChain.cpp:540-577 | The whole loop in any state, also after it has thrown: which blocks it takes, when it throws, what it writes, what everyone sees, and whether the front keeps a parent |
| `Solidifying.ViewsKeptExact` | chain/BlockChain.cpp:551-573 | A call keeps what the remaining blocks see, and puts on disk what the last block taken saw, if and only if the front has no parent left, or nothing is due, or later blocks taken set whatever disk and front see differently |
| `Solidifying.FreeCallKeeps` | chain/BlockChain.cpp:551-573 | Without a parent left behind a call keeps every view, block states missing or not |
| `Solidifying.TakenExact` | chain/BlockChain.cpp:546-559 | A call takes exactly the blocks with numbers up to the given one, or those up to and with the first whose state is missing |
| `Solidifying.SoundCallExact` | chain/BlockChain.cpp:547-575 | A call keeps the disk crash-consistent if and only if no block was left without its state before, or the first block due has none either, or none is due |
| `Disk.CutInEpisode` | chain/BlockChain.cpp:551-569 | A cut strictly inside the writes of any one round finds the flag up |
| `Disk.CleanCut` | chain/BlockChain.cpp:547-575 | Wherever the writes are cut, a flag that is down means that every store is as after a whole number of rounds, the last of which closed |
| `Disk.ReadBack` | database/DatabaseController.cpp:223-252 | After solidifying, every block and its state can be read by id and by number, if no later one has them |
| `Disk.OldBlocksStay` | database/DatabaseController.cpp:223-252 | What was stored under other ids and numbers is still there |
| `Disk.LastBlockRules` | chain/BlockChain.cpp:561-569 | Height and active producers are those of the last block, and the flag is down |
| `CrashSafety.CrashSafeExact` | chain/BlockChain.cpp:547-575 | Over any sequence of rounds: at every cut of the writes a flag of 0 means a whole number of blocks, if and only if no round closes after one whose block state was missing |
| `CrashSafety.FlagTells` | chain/BlockChain.cpp:548-569 | As long as that held, the flag on disk is 1 exactly when some block state has been missing |
| `Runs.RunExact` | chain/BlockChain.cpp:540-577 | Over any run of executed and cancelled blocks and solidify calls, every call does to the views exactly what its flat operation does, if and only if each solidify call meets the condition on the state before it |
| `Runs.FittingRun` | chain/BlockChain.cpp:168-253 | Then the views of the chain are those of the run of flat operations |
| `Runs.FitsUntilFailure` | chain/BlockChain.cpp:540-577 | As long as no call has missed a block state, every call meets that condition |
| `Runs.RunCrashSafeExact` | chain/BlockChain.cpp:540-577 | Over any run with growing block numbers: at every cut a flag of 0 means a whole number of blocks, if and only if no solidify call whose first block has its state follows one that missed a state |
| `Runs.RunCrashSafe` | chain/BlockChain.cpp:540-577 | The safe direction whatever the numbers, with the very blocks that were solidified |
| `Runs.FlagOfRun` | chain/BlockChain.cpp:548-569 | Until then the flag on disk is up exactly after a call has missed a state, so that the condition can be told before the call |
| `ChainRuns.Drive` | chain/BlockChain.cpp:168-253 | A chain can be driven through any sequence of calls; none is refused, and what it goes through is a run |
| `ChainRuns.ChainCrashSafe` | chain/BlockChain.cpp:540-577 | The exact condition for the journal of the database under the chain |
| `ChainRuns.ChainBalanced` | chain/BlockChain.cpp:168-253 | If every call met the condition, every world of the chain is in double entry and in range |
| `ChainRuns.TwoCalls` | chain/BlockChain.cpp:547-573 | Two solidify calls, the first missing a state: the flag is down over block 1 without its state, the state and height of block 2 without its block, and a ledger without what block 2 did; no whole number of blocks makes that |
| `Slots.BlockChain.CheckProducer` | chain/BlockChain.cpp:1092-1112 | The checks in their order accept exactly the admitted blocks |
| `Slots.BlockChain.UpdateProducerRecord` | chain/BlockChain.cpp:1080-1090 | The loop keeps the records of the scheduled producers, with 0 for new ones, and forgets the rest |
| `Slots.BlockChain.ProcessBlock` | chain/BlockChain.cpp:179-206 | What executing a block does to record, schedule and update time |
| `Slots.ExpectedBySlot` | chain/BlockChain.cpp:406-412 | At every time, before genesis too, the scheduled producer depends on the slot only: position in the round, and the zero address where there is none |
| `Slots.RecordAfterUpdate` | chain/BlockChain.cpp:1080-1090 | After an update exactly the first seven of the new schedule have records: the time of their last block on record, or 0 |
| `Slots.RoundRobin` | chain/BlockChain.cpp:406-412 | In a full schedule the slots of 2000 ms from genesis on go to the seven producers in order |
| `Slots.OneBlockPerSlot` | chain/BlockChain.cpp:1092-1112 | Between schedule updates no two executed blocks share a slot, each is by the producer of its slot, and each producer's timestamps increase |
| `Slots.OneBlockPerSlotEver` | chain/BlockChain.cpp:201-206 | Over any number of updates no two blocks share a slot if each update block is the latest so far |
| `Slots.UpdateSafeExact` | chain/BlockChain.cpp:201-206 | Whatever the new schedule, an update keeps one block per slot if and only if the slot of every executed block begins no later than the update block, which in time means that it is in the latest slot so far |
| `Slots.CollisionExample` | chain/BlockChain.cpp:1092-1112 | Three admitted blocks, the second an update in an earlier slot, two of them in one slot |
| `Slots.RecordGuardsExact` | chain/BlockChain.cpp:1092-1112 | After an admitted block no further block of its producer is admitted into its slot, if and only if its timestamp is at or after genesis or a whole number of slots before |
| `Slots.BeforeGenesisExample` | chain/BlockChain.cpp:1092-1096 | With producer 10 scheduled, its blocks 1500 ms before and 100 ms after genesis are both admitted into slot 0 |
| `JumpTable.VM.Optimize` | runtime/vm/VM.cpp:64-103 | One scan fills an increasing table of exactly the JUMPDEST bytes at instruction starts, and masks the synthetic opcodes at instruction starts and nothing else |
| `JumpTable.InstructionReach` | runtime/vm/VM.cpp:96-101 | A PUSH of n bytes covers the n bytes behind it, none of which starts an instruction, and the byte behind those starts one; after any other opcode the next byte does |
| `JumpTable.MarksExact` | runtime/vm/VM.cpp:75-103 | There is one way to mark a code by that rule, and it marks the instruction starts |
| `JumpTable.DestExact` | runtime/vm/VM.cpp:96-101 | A 0x5b byte is a valid destination if and only if no instruction covers it |
| `JumpTable.MaskedBytes` | runtime/vm/VM.cpp:88-95 | The masked code byte by byte: 0xac, 0xad and 0xae at instruction starts become 0xfe, and 33 zeros follow |
| `JumpTable.PushDataExample` | runtime/vm/VM.cpp:98-100 | In the code 0x60 0x5b 0x5b a jump to 1 is refused and one to 2 accepted |
| `JumpTable.VM.VerifyJumpDest` | runtime/vm/VM.cpp:321-334 | The destination if it fits in 63 bits and is in the table; otherwise the exception or -1 |
| `JumpTable.BinarySearch` | runtime/vm/VM.cpp:328-329 | Binary search in an increasing table finds exactly its members |
| `JumpTable.Jump` | runtime/vm/VM.cpp:75-103 | From scan to search: a jump is accepted if and only if its destination is a valid one that fits |
| `JumpTable.NoSyntheticLeft` | runtime/vm/VM.cpp:88-95 | The masked code has the same instruction starts and valid destinations and no synthetic opcode at a start |
| `Words.Exp256` | runtime/vm/VM.cpp:51-62 | Square-and-multiply with every product cut to 256 bits is base to the exponent modulo 2^256 |
| `Words.SarIsFloorDivision` | runtime/vm/VM.cpp:834-862 | Shift and mask is two's-complement floor division by 2^n, for every n, 0 and 256 and more included |
| `Words.SignExtendIsSigned` | runtime/vm/VM.cpp:877-892 | Masking is two's-complement sign extension, for every byte index |
| `Words.SignedInverse` | core/include/core/Common.h:154-171 | The two conversions between words and signed numbers undo each other |
| `Words.SignedInNumbers` | core/include/core/Common.h:154-171 | A word from 2^255 on is read as 2^256 less |
| `VmStack.Stack.AdjustStack` | runtime/vm/VM.cpp:352-363 | Fails exactly on underflow or overflow of the 1024 cells, and otherwise moves the stack pointer |
| `VmStack.Stack.ShiftArithmeticRight` | runtime/vm/VM.cpp:834-862 | The instruction replaces two operands by the shifted one and leaves the rest of the stack |
| `VmStack.Stack.ExtendSign` | runtime/vm/VM.cpp:877-892 | The instruction replaces two operands by the extended one and leaves the rest of the stack |

## Left out

- Networking, RPC, programs, configuration parsing, JSON and logging: plumbing without a law of its own.
- Cryptography (signatures, ECIES, AES, sha3 itself): calls into libraries; the hash is a parameter.
- Fork choice, confirmation quorum and block-state rollback (`checkBifurcation`, `popBlockState`, `fetchBranchFrom`): they depend on peer messages and container order.
- The dispatch loop of the virtual machine, gas, contract storage, CREATE and CALL: largely stubbed in the source; only the listed operations are modelled.
- Serialisation of accounts, producers and receipts: it adds field lists on top of RLP.
- The rest of LevelDB (version set, merging iterator, skip list, table files, crc32c): given by contract, a sorted sequence of entries, a test for deeper levels and a checksum with its laws.
- The read-sampling and the buffer-swapping of the iterator: they change no position.
- `MakeRoomForWrite`: modelled as the point where others may enter, the log file may change, and a recorded error is returned; why it waits is not modelled.
- Real threads and memory order: the group-commit protocol is a state machine whose steps are the stretches between lock operations.
- Sequence numbers past 2^56 - 1 and queue sizes past `size_t`: numbers are unbounded in the group-commit model.
- Update in place of account and producer objects: repositories copy them out and put them back, so they are values here and the maps that hold them are the state.
- The halving of the block bonus over the years: the bonus is a parameter; shifts by 64 or more are not defined by C++.
- The front of an empty memory queue in the solidify loop: read as no item, as the loop intends.
- The removal of solidified blocks from the rollback state: the block states that can be found are a parameter of each call.
- The killed flag in the solidify loop: stopping between two blocks is one of the cuts covered by crash consistency.
- LogReader.Reader.ReadNext: only for an initial offset of 0, so resynchronising in the middle of a file is not modelled.
- A log record that a failed write leaves half written: the group-commit model takes a record to be in the log whole or not at all.
- Durability.RecoverLogFile: without paranoid checks, and without the flushes of a full memtable and the largest sequence number that recovery keeps on the way.
- Durability.DurableWrite: sequence numbers, counts and lengths in the log are required to fit the fields that hold them.
- TrieStream.TrieRlp256: keys are required to be shorter than the largest unsigned number, which the code uses as the mark for no shared prefix.
- Slots.BlockChain.ProcessBlock: the schedule that an update brings is a parameter; how producers are sorted is not modelled.
