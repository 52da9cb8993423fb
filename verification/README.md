# Verified models of the block executor, the encodings and the trees

This project models eight parts of the node and proves what they are for. `dafny verify dfyconfig.toml`
checks everything.

**Parallel execution of a block** (`TxGraph`, `Scheduler`, `ScheduleSafety`, `Serializability`, `Liveness`,
`ParallelExecution`, `TxDag`). Transactions declare the keys they may touch; a graph of conflicts is built from the
latest holder of each key; workers drain it with atomic in-degree counters, a shared ready queue and the first freed
vertex kept in hand. `TxGraph` proves that every conflicting pair is joined by a path. `Scheduler` is the state machine
of the worker loop, one shared access a step, for any number of workers; a transaction is any program, one access at a
time. If the transactions, executed one after the other, touch only their own keys, every interleaving ends with the
store and the receipts of that serial execution, and every fair run ends. `TxDag` has the classes themselves, proved
against the same functions.

**RLP** (`Bytes`, `Rlp`, `RlpStream`, `RlpWriter`, `RlpReader`, `RlpCursor`). The stream writes payloads first and
inserts list headers in place; driving it with any tree writes the recursive definition of Appendix B of the
Ethereum Yellow Paper. The strict reader is its exact inverse. The list cursor with its cache answers any sequence
of indices.

**The Patricia tree** (`TrieCommon`, `Trie`, `TrieLookup`, `TrieView`, `TrieHash`, `TrieRoot`, `TrieMaps`,
`TrieExamples`). The recursion over a sorted map that writes nodes into RLP streams, for any hash with 32 bytes. Looking a key up in the
nodes gives what is visible of the map, and, as long as no two of the strings that were hashed collide, two roots are
equal exactly when the same is visible of the maps. Only an empty value can be invisible, and none is in a list.

**The 16-ary Merkle tree** (`Merkle`, `MerkleProof`, `MerkleMap`, `MerkleWalk`). The root, the map from parents to
children, its inverse, and the walk from a leaf; with pairwise distinct node values, folding the walk gives the root.

**The broadcast tree** (`Topology`, `Broadcast`, `TreeTopology`, `NodeBroadcast`). An implicit tree rotated by the
start index, in which nodes that are not connected are passed over. When every node sends a message on to the nodes
that its own `selectNodes` returns, every other connected node receives it exactly once, in whatever order the messages
arrive, and parents and children agree.

**The contract ABI** (`Abi`, `AbiBytes`, `AbiRoundTrip`, `ContractAbi`). Heads and tails as the Contract ABI
Specification defines them, byte by byte, nested arrays and vectors included, and reading them back.

**Committing blocks** (`Blocks`, `Chain`, `ChainRuns`, `TxSearch`, `BlockChainImp`, `BlockCache`). Concurrent calls of
`commitBlock`, with the parent-hash check outside the lock and tables and a database that may fail, keep the chain a
chain. Calls of `getBlock` and `getTxByHash` in between answer with what is stored, whatever the block cache does, and
the theorems say exactly when a stored transaction is out of reach.

**The channel's framing** (`Framing`). Messages are delivered alike however the bytes are cut into reads, and exactly
the bytes that are frames of messages are delivered as such.

Where the code does less than one might expect, the theorem says exactly when it does it:

- A Merkle proof folds to the root exactly when the leaf is not the empty string, because the child map leaves empty
  children out (`MerkleWalk.ProofIsComplete`; `MerkleWalk.EmptyLeafExample` is the tree with one empty leaf).
- A broadcast from an observer covers all connected nodes, whichever they are, exactly for start index 0, because the
  index is used as a position in a tree that is rotated by it (`NodeBroadcast.ObserverCoversOnlyAtZero`).
- A message from a start that is no node of the list, for which the list index is -1, goes along the tree that the last
  node is the root of, but the last node sends it to nobody (`TreeTopology.UnknownStart`). Asking for such a message, in
  a list of two nodes or more, ends in reading the list at index -1 exactly when no node above is connected, the root
  aside, and always when all parents are asked for (`TreeTopology.UnknownParent`, `TreeTopology.UnknownParentExample`).
- Reading the Patricia tree gives what the map says for all keys exactly when no key with an empty value is the front
  of another key (`TrieMaps.LookupIsExact`, with `TrieMaps.LostValue` for an example). The root still shows such an
  empty value unless keys go on after it with two different nibbles; two maps have the same root exactly when they are
  equal but for empty values of that kind (`TrieMaps.RootsAreFaithful`, `TrieMaps.HiddenValue`).
- ABI arguments come back exactly when every signed number in them is at least -7 * 2^252 and below 9 * 2^252, the
  range of the sign threshold 0x8fff...ff (`AbiRoundTrip.RoundTrip`).
- RLP decoding inverts encoding exactly for trees whose lists and strings are below the length limit that keeps a
  `size_t` from overflowing (`RlpReader.DecodeIsInverse`).
- On a malformed list, a lookup past the readable items throws, and from then on a lookup of the last readable item
  throws too, until an earlier one is looked up (`RlpCursor.RLP.Index`). The header comment promises a null item for
  every index past the end; the code keeps that promise for well-formed lists. The bytes c2 01 82 pass the strict
  checks and break it (`RlpCursor.LookMalformedUp`).
- `toList` comes to an end exactly when an item cannot be read or no bytes follow the list (`RlpCursor.IteratorEnds`);
  on the bytes c1 01 02 it does not (`RlpCursor.EndlessExample`).
- A session on the channel stops reading without a disconnection exactly when a header with a length below its own
  follows some messages, or none, and disconnects exactly when one with a length above the limit does
  (`Framing.StopsExactly`, `Framing.DisconnectsExactly`); 42 zeros stop it (`Framing.ZerosStop`).
- Between dbCommit and the update of the cached number a new block is stored, but number() is one behind, and
  `getTxByHash` returns the empty transaction for what is new in it. A committed transaction that shares its hash with
  no different one is found exactly when the height that is entered for it is not above number(), which is the height
  of the chain exactly when no call is in that window (`ChainRuns.ChainSurvives`). Every commit passes through it
  (`ChainRuns.NewTxIsHidden`, `BlockChainImp.WindowIsReached`).
- The block cache holds the last eleven blocks as long as no hash comes twice within eleven additions, and only then is
  it always filled (`BlockCache.FilledExactlyWhenSpread`). It is cleared exactly when it is full and the oldest queued
  hash has no entry (`BlockCache.ClearsAtOrphan`), as happens after the additions 1, 1, 2, ..., 12 when 13 is added
  (`BlockCache.ClearedExample`).

## Model

| member | source | states |
|---|---|---|
| TxGraph.ConflictGraphComplete | libblockverifier/TxDAG.cpp:59-102 | every pair i < j that shares a key, or where one touches everything and the other touches something, is joined by a path from i to j; all edges go from smaller to larger ids in range; a transaction without keys conflicts with nothing |
| TxGraph.ConflictCases | libblockverifier/TxDAG.cpp:69-100 | which pairs of key lists conflict, case by case: missing, empty, or a list |
| TxGraph.AddTxKeepsInv | libblockverifier/TxDAG.cpp:61-102 | one round of the loop keeps: every earlier toucher of a key reaches its latest holder |
| TxGraph.AddHoldersEdges | libblockverifier/TxDAG.cpp:75-82 | the edges that the keys of a transaction add are exactly those from their latest holders |
| TxGraph.AddAllHoldersEdges | libblockverifier/TxDAG.h:118-128 | a transaction that touches everything gets edges from exactly the holders of the table and of the fallback |
| TxDag.CriticalField.Get | libblockverifier/TxDAG.h:104-114 | the latest holder of a key, with the fallback to the last transaction that touched everything |
| TxDag.CriticalField.Update | libblockverifier/TxDAG.h:116-116 | that key's holder changes and no other |
| TxDag.CriticalField.SetCriticalAll | libblockverifier/TxDAG.h:130-134 | from now on every key is held by that transaction |
| TxDag.DAG.Init | libblockverifier/DAG.cpp:34-41 | new vertices without edges, counters at zero |
| TxDag.DAG.AddEdge | libblockverifier/DAG.cpp:43-51 | one edge more in the graph and one in-degree more, repeated edges counted |
| TxDag.DAG.Generate | libblockverifier/DAG.cpp:53-65 | the ready queue holds exactly the vertices of in-degree zero, in order |
| TxDag.DAG.TryPop | libblockverifier/DAG.cpp:67-98 | the first ready vertex, or INVALID_ID exactly when none is ready |
| TxDag.DAG.Consume | libblockverifier/DAG.cpp:100-135 | in-degrees, queue and the vertex in hand afterwards are those of the released successors, and one vertex more is consumed |
| TxDag.ConsumeAlone | libblockverifier/DAG.cpp:100-135 | running consume as code is a run of the worker's steps in the state machine, so the class and the machine agree |
| TxDag.TxDAG.Init | libblockverifier/TxDAG.cpp:37-110 | the graph, the in-degrees and the ready queue are those of the conflict graph of the transactions |
| TxDag.SetUp | libblockverifier/BlockVerifier.cpp:371-372 | a new graph for a block is in the initial state of the state machine |
| TxDag.AddTransactions | libblockverifier/TxDAG.cpp:59-102 | the loop over the transactions builds exactly the conflict graph |
| TxDag.AddFields | libblockverifier/TxDAG.h:118-124 | edges from all holders of the table, whatever the order of the visits |
| Scheduler.StepShape | libblockverifier/TxDAG.cpp:118-140 | every step of a worker is one shared access and keeps all ids in range |
| Scheduler.CopyingCopies | libblockverifier/TxDAG.cpp:124-131 | an execution reads what the store holds, and what it writes is stored afterwards |
| ScheduleSafety.StepSafe | libblockverifier/DAG.cpp:67-135 | every step of every worker keeps: in-degrees equal the decrements still due, every vertex is in one place, counters match the history |
| ScheduleSafety.DecrementPreserves | libblockverifier/DAG.cpp:105-124 | one fetch_sub on a successor keeps the invariant, whether or not it frees the vertex |
| ScheduleSafety.PopPreserves | libblockverifier/DAG.cpp:73-78 | taking a vertex from the queue keeps the invariant |
| ScheduleSafety.PredecessorsExecuted | libblockverifier/DAG.cpp:109-111 | a vertex whose in-degree is zero has all its predecessors executed |
| ScheduleSafety.InHandOnce | libblockverifier/DAG.cpp:114-117 | a vertex in a worker's hand is in no queue, in no other hand, and not consumed |
| ParallelExecution.OnePlace | libblockverifier/DAG.cpp:53-135 | every vertex is exactly one of waiting, queued, in hand, consumed |
| ParallelExecution.RunsOnceAfterAncestors | libblockverifier/TxDAG.cpp:124-131 | a transaction in progress has all its ancestors executed, has not run before and runs nowhere else |
| ParallelExecution.ReceiptsStay | libblockverifier/BlockVerifier.cpp:378-378 | a receipt is written once and never changed |
| Liveness.CountersBounded | libblockverifier/TxDAG.cpp:134-138 | executions counted so far, in all workers together, never exceed the transactions, so no counter overflows |
| Liveness.FinishedMeansDone | libblockverifier/TxDAG.h:74-77 | when the count is reached, every transaction has run and been consumed and no worker is at one |
| Liveness.WorkAvailable | libblockverifier/DAG.cpp:53-135 | while a transaction is unconsumed, the queue is not empty or a worker has one in hand |
| ParallelExecution.SerializableRuns | libblockverifier/BlockVerifier.cpp:375-411 | in every interleaving of any number of workers, once some worker leaves the loop the store and all receipts are those of executing the transactions one after the other |
| ParallelExecution.BlocksInNumbers | libblockverifier/TxDAG.cpp:37-110 | the theorems are about all blocks of fewer than 2^32 - 1 transactions that keep to their keys, with the graph of their conflicts |
| ParallelExecution.FinishedIsSerial | libblockverifier/TxDAG.h:74-77 | the same as soon as the count is reached |
| Liveness.StepPotential | libblockverifier/TxDAG.cpp:118-140 | no step raises the amount of work left, and a step that does something lowers it |
| Liveness.RoundAdvances | libblockverifier/BlockVerifier.cpp:397-409 | a round in which every worker has three turns advances an unfinished block |
| ParallelExecution.FairRunsComplete | libblockverifier/BlockVerifier.cpp:387-411 | every fair run ends with all workers out of the loop and the serial result |
| Serializability.RunKeeps | libblockverifier/TxDAG.cpp:118-140 | over any run, every worker has seen what serial execution would have shown it, and every key has the value of its executed writers in serial order |
| Serializability.StepFaithful | libblockverifier/TxDAG.cpp:124-131 | the same for one step |
| Serializability.BlocksAreOrdered | libblockverifier/TxDAG.cpp:37-110 | the graph that is built for a block joins every conflicting pair by a path, with all edges going up |
| Serializability.ConflictsExecuted | libblockverifier/TxDAG.cpp:69-100 | a transaction in progress has all earlier conflicting ones executed and no later conflicting one started |
| Bytes.FromToBigEndian | libdevcore/CommonData.h:137-159 | reading back the shortest big-endian form gives the number |
| Bytes.ToFromBigEndian | libdevcore/CommonData.h:137-159 | every string without a leading zero is the shortest form of the number it stands for |
| Bytes.BigEndianLength | libdevcore/CommonData.h:254-263 | a number needs at most k bytes exactly when it is below 256^k |
| Bytes.FixedValue | libdevcore/CommonData.h:137-159 | a number that fits is read back from a fixed number of bytes |
| Bytes.FixedOfValue | libdevcore/CommonData.h:137-159 | bytes are written again from the number that they stand for |
| Bytes.FirstByteIsHighest | libdevcore/CommonData.h:153-159 | the first byte counts the highest |
| Bytes.BytesRequired | libdevcore/CommonData.h:254-263 | the length of the shortest big-endian form |
| Bytes.ReadBigEndian | libdevcore/CommonData.h:153-159 | the loop computes the number that the bytes stand for |
| Rlp.HeaderExists | libdevcore/RLP.h:61-69 | lengths have a header exactly when they fit in a size_t |
| Rlp.StringBytes | libdevcore/RLP.cpp:317-338 | in numbers: a byte below 0x80 stands for itself; up to 55 bytes have 0x80 plus their number in front, longer strings 0xb7 + k and a length of k bytes without a leading zero |
| Rlp.ListBytes | libdevcore/RLP.cpp:268-315 | a payload of up to 55 bytes has 0xc0 plus its length in front, a longer one 0xf7 + k and a length of k bytes without a leading zero |
| Rlp.CatAndDog | libdevcore/RLP.cpp:297-338 | the list of "cat" and "dog" is c8 83 63 61 74 83 64 6f 67 |
| RlpStream.RLPStream.NoteAppended | libdevcore/RLP.cpp:251-295 | every list that is completed gets its header in place, innermost first, and counts as one item outside; too many items and too long lists are the exceptions |
| RlpStream.RLPStream.InsertHeader | libdevcore/RLP.cpp:268-290 | the payload moves up and the header stands in front of it; bytes before it stay |
| RlpStream.RLPStream.WriteBackwards | libdevcore/RLP.h:746-754 | the digits of a number fill exactly the bytes up to an index |
| RlpStream.RLPStream.AppendRaw | libdevcore/RLP.cpp:244-249 | the bytes are appended and count as the given number of items |
| RlpStream.RLPStream.Append | libdevcore/RLP.cpp:317-338 | the encoding of a byte string, or in the compact form of what is left of it without leading zeros, is appended as one item |
| RlpStream.WithoutZerosIsShortest | libdevcore/RLP.cpp:317-338 | what the compact form keeps is the shortest form of the number that the bytes stand for |
| RlpStream.RLPStream.AppendInt | libdevcore/RLP.cpp:340-364 | the encoding of the shortest form of a number is appended as one item |
| RlpStream.RLPStream.AppendList | libdevcore/RLP.cpp:297-305 | a list of n items is open, or, for n = 0, an empty list is appended as one item |
| RlpStream.RLPStream.AppendListBytes | libdevcore/RLP.cpp:307-315 | a list with that payload is appended as one item |
| RlpStream.RLPStream.PushCount | libdevcore/RLP.cpp:366-373 | the header in long form, or the exception for counts that are too large |
| RlpStream.RLPStream.PushInt | libdevcore/RLP.h:746-754 | the shortest form of a number is appended |
| RlpWriter.WriteItem | libdevcore/RLP.cpp:244-338 | appendList(n) followed by its n items, recursively, appends the encoding of the tree as one item of the enclosing list, through any cascade of insertions |
| RlpWriter.Write | libdevcore/RLP.cpp:244-338 | on a new stream the list stack ends empty and the output is the recursive encoding |
| RlpWriter.AppendedLast | libdevcore/RLP.cpp:251-295 | the last item of a list closes it, and the list counts as an item one level out |
| RlpWriter.AppendedInside | libdevcore/RLP.cpp:256-262 | any other item only lowers the count |
| RlpReader.DecodeIsInverse | libdevcore/RLP.cpp:40-229 | a byte string is accepted as a tree exactly when it is the encoding of that tree, which is within the length limit |
| RlpReader.DecodeEncoded | libdevcore/RLP.h:264-276 | decoding an encoding gives the tree back |
| RlpReader.DecodedEncodes | libdevcore/RLP.cpp:173-229 | whatever is accepted is the encoding of what it decodes to |
| RlpReader.HeaderIsRead | libdevcore/RLP.cpp:173-229 | an accepted prefix is the one header for its length: no other form is let through |
| RlpReader.ReadsHeader | libdevcore/RLP.h:453-501 | behind a written header the reader finds its length, its kind and its payload, whatever follows |
| RlpReader.FirstByteRead | libdevcore/RLP.cpp:173-229 | for every first byte, in numbers: which length and which payload it announces, how many bytes of length follow, and when they are rejected |
| RlpReader.ToIntExact | libdevcore/RLP.h:395-417 | an integer is read from its own encoding and from no other byte string |
| RlpReader.IntegersAreData | libdevcore/RLP.cpp:146-171 | isInt holds exactly for strings without a leading zero |
| RlpReader.EncodeInjective | libdevcore/RLP.cpp:173-229 | different trees have different encodings |
| RlpCursor.RLP.Index | libdevcore/RLP.cpp:88-103 | for any sequence of indices, the item at that place or null past the end; on a malformed list, exactly which lookups throw |
| RlpCursor.LookMalformedUp | libdevcore/RLP.cpp:88-103 | on the malformed list c2 01 82, item 0 is found, item 1 throws, and item 0 is then not found |
| RlpCursor.RLP.Items | libdevcore/RLP.cpp:231-242 | the number of items, or an exception on a malformed list |
| RlpCursor.RLP.ToList | libdevcore/RLP.cpp:105-120 | all items in order, or an exception on a malformed list, whenever the loop ends |
| RlpCursor.Iterate | libdevcore/RLP.cpp:60-86 | from begin() to end() the iterator visits every item once and stops |
| RlpCursor.IteratorEnds | libdevcore/RLP.cpp:60-86 | the iterator comes to end() or throws exactly when an item cannot be read or no bytes follow the list |
| RlpCursor.EndlessExample | libdevcore/RLP.cpp:60-120 | for c1 01 02 it neither throws nor comes to end() |
| RlpCursor.EncodedListItems | libdevcore/RLP.cpp:60-120 | in the encoding of a list the cursor finds the encodings of its items, and nothing else |
| RlpCursor.FrontIsStrict | libdevcore/RLP.h:498-501 | an item that is opened loosely is exact once it is cut off |
| TrieCommon.AsNibbles | libdevcore/CommonData.cpp:116-126 | two nibbles a byte, high one first |
| TrieCommon.NibblesOfByte | libdevcore/CommonData.cpp:116-126 | byte i gives nibble 2i, its high half, and nibble 2i + 1, its low half |
| TrieCommon.EncodeVector | libdevcore/TrieCommon.cpp:42-57 | the hex-prefix encoding of the chosen nibbles, for every range and parity |
| TrieCommon.EncodePacked | libdevcore/TrieCommon.cpp:59-81 | the same encoding as for the vector of the slice's nibbles, for every offset |
| TrieCommon.EncodeTwo | libdevcore/TrieCommon.cpp:83-114 | the same encoding as for the two slices' nibbles one after the other |
| TrieCommon.HexPrefixInverse | libdevcore/TrieCommon.h:108-123 | keyOf and the leaf flag are the inverse of the encoding, on exactly the well-flagged strings |
| TrieCommon.HexPrefixBytes | libdevcore/TrieCommon.cpp:42-57 | every byte of the encoding in numbers: the flags 0x20 and 0x10, the odd nibble, and two nibbles a byte |
| TrieCommon.NibbleAt | libdevcore/TrieCommon.h:29-32 | nibble i of packed bytes is nibble i of asNibbles |
| TrieCommon.SharedNibbles | libdevcore/TrieCommon.h:36-48 | the length of the longest common prefix of the two ranges |
| TrieCommon.IsEarlierThan | libdevcore/TrieCommon.h:84-97 | the lexicographic order of nibble strings |
| TrieHash.SharedPre | libdevcore/TrieHash.cpp:43-57 | how far all keys agree, counted from the start of the keys |
| TrieHash.GroupIsRun | libdevcore/TrieHash.cpp:69-73 | in a sorted map the keys with the same next nibble stand together |
| TrieHash.Hash256Rlp | libdevcore/TrieHash.cpp:27-85 | writes exactly the node of the entries, ends, and throws nothing |
| TrieHash.Branch | libdevcore/TrieHash.cpp:61-83 | writes the 16 children and the value |
| TrieHash.Hash256Aux | libdevcore/TrieHash.cpp:87-99 | appends the node if its encoding is below 32 bytes, or else its hash, as one item |
| Trie.StandsBelow32 | libdevcore/TrieHash.cpp:87-99 | a node of at most 31 bytes stands in its parent itself, any other as its hash |
| TrieLookup.NodeSound | libdevcore/TrieHash.cpp:27-85 | every node can be encoded and read back |
| TrieLookup.LookupFinds | libdevcore/TrieHash.cpp:27-99 | looking a key up in the nodes of any entries with distinct keys finds their value for it or nothing, but for an empty value where other keys go on |
| TrieLookup.RootLookup | libdevcore/TrieHash.cpp:101-117 | the same from the root hash on |
| TrieLookup.BoundsInNumbers | libdevcore/TrieHash.cpp:27-57 | the theorems are about all keys below 2^31 nibbles and values below 2^62 bytes |
| TrieView.SameNode | libdevcore/TrieHash.cpp:27-99 | entries that look the same to a reader have the same tree |
| TrieView.RootsShowView | libdevcore/TrieHash.cpp:101-117 | two roots are equal exactly when the entries look the same |
| TrieRoot.SortedEntries | libdevcore/TrieHash.cpp:106-108 | filling the sorted map gives the sorted entries of the input, in whatever order they are inserted |
| TrieRoot.Rlp256 | libdevcore/TrieHash.cpp:101-112 | the encoding of the root node of the sorted map |
| TrieRoot.Hash256 | libdevcore/TrieHash.cpp:114-117 | its hash |
| TrieRoot.TreeOfEntries | libdevcore/TrieHash.cpp:101-112 | the bytes of a map's tree are those of its sorted entries, whichever list of them one takes |
| TrieRoot.EntriesUnique | libdevcore/TrieHash.cpp:106-108 | a map has only one list of sorted entries, so its root depends on the map alone |
| TrieRoot.OrderedTrieRoot | libdevcore/TrieHash.cpp:119-126 | the root of the map from rlp(j) to element j |
| TrieRoot.IndexKeyIsRlp | libdevcore/TrieHash.cpp:119-126 | the key of element j is read by the strict reader as the integer j, for every j below 2^32 |
| TrieRoot.IndexKeyBytes | libdevcore/TrieHash.cpp:119-126 | that key byte by byte: 80 for element 0, j below 0x80, 81 j below 0x100, and 80 plus the length and the shortest form from there on |
| TrieRoot.RlpOfInt | libdevcore/RLP.h:774-778 | what a new stream holds after the integer is appended is that key |
| TrieExamples.NoElement | libdevcore/TrieHash.cpp:101-112 | the tree of the empty map is the byte 80 |
| TrieExamples.OneElement | libdevcore/TrieHash.cpp:119-126 | the tree of the list of the one element "a" is the node c4 82 20 80 61 |
| TrieExamples.TwoKeys | libdevcore/TrieHash.cpp:27-85 | the 26 bytes of an extension and the branch with two leaves behind it |
| TrieMaps.LookupSeesMap | libdevcore/TrieHash.cpp:101-117 | from the root of a map on, a key finds its value unless that is empty and other keys go on after it |
| TrieMaps.LookupIsExact | libdevcore/TrieHash.cpp:101-117 | all lookups give what the map says exactly when no key with an empty value is the front of another |
| TrieMaps.RootsAreFaithful | libdevcore/TrieHash.cpp:101-117 | two maps have the same root exactly when they agree but for empty values after whose keys others go on with two different nibbles |
| TrieMaps.LostValue | libdevcore/TrieHash.cpp:61-83 | a map with an empty value that a lookup does not find and the root shows |
| TrieMaps.HiddenValue | libdevcore/TrieHash.cpp:61-83 | two maps that differ in an empty value and have the same tree |
| TrieMaps.OrderedRootsAreFaithful | libdevcore/TrieHash.cpp:119-126 | two lists have the same ordered root exactly when they are the same list |
| Merkle.FromToHex | libdevcore/CommonData.h:53-76 | toHex can be undone, so different nodes have different names |
| Merkle.HexDigits | libdevcore/CommonData.h:53-76 | the two digits of every byte, high one first |
| Merkle.Join | libdevcore/TrieHash2.cpp:57-67 | the bytes that a node hashes are those of its up to 16 children in order |
| Merkle.GetHash256 | libdevcore/TrieHash2.cpp:40-76 | the recursive Merkle root, in whatever order the nodes of a level are computed |
| Merkle.SixteenChildren | libdevcore/TrieHash2.cpp:54-73 | node i of the next level hashes exactly the nodes 16i to 16i + 15, or as many of them as there are |
| Merkle.RootOfFew | libdevcore/TrieHash2.cpp:40-76 | for 2 to 16 leaves, the hash of the hash of all of them |
| Merkle.RootOfSeventeen | libdevcore/TrieHash2.cpp:40-76 | for 17 leaves, two nodes below the last one |
| MerkleMap.ParentToChildren | libdevcore/TrieHash2.cpp:78-125 | with distinct nodes, the map has exactly one entry for every inner node, with its children in order |
| MerkleMap.EnterNode | libdevcore/TrieHash2.cpp:96-117 | one node more is entered, and no entry changes |
| MerkleProof.ParentUnique | libblockchain/BlockChainImp.cpp:1071-1092 | with distinct nodes a child has one parent |
| MerkleWalk.ParseMerkleMap | libblockchain/BlockChainImp.cpp:1071-1092 | every child that is not empty is entered under a parent that lists it, and nothing else is |
| MerkleWalk.GetMerkleProof | libblockchain/BlockChainImp.cpp:1094-1124 | the siblings along the way to the root |
| MerkleWalk.WalkEnds | libblockchain/BlockChainImp.cpp:1101-1123 | in a tree with distinct nodes every step of the walk is nearer to the root, so it ends |
| MerkleWalk.WalkFolds | libblockchain/BlockChainImp.cpp:1094-1124 | from any node of a level, the collected proof folds to the root, and it has a step for every level |
| MerkleWalk.ProofLength | libblockchain/BlockChainImp.cpp:1094-1124 | the proof of a leaf has at most k + 1 steps exactly when there are at most 16^k leaves |
| MerkleWalk.ProofIsComplete | libblockchain/BlockChainImp.cpp:1071-1124 | the proof of a leaf folds to the root exactly when the leaf is not empty |
| MerkleWalk.EmptyLeafExample | libblockchain/BlockChainImp.cpp:1071-1124 | the tree with one empty leaf has distinct nodes, and the proof of its leaf does not fold to the root |
| MerkleWalk.ProveLeaf | libblockchain/BlockChainImp.cpp:1071-1124 | the same for the three steps run one after the other |
| TreeTopology.TreeTopology.UpdateConsensusNodeInfo | libdevcore/TreeTopology.cpp:27-37 | the list, its bounds and the own index belong together |
| TreeTopology.TreeTopology.GetNodeIndexByNodeId | libdevcore/TreeTopology.cpp:54-67 | the first place of the node, or -1 exactly when it is not there |
| TreeTopology.TreeTopology.RecursiveSelectChildNodes | libdevcore/TreeTopology.cpp:98-136 | appends the nearest connected descendants of a position, in order |
| TreeTopology.TreeTopology.SelectParentNodes | libdevcore/TreeTopology.cpp:147-176 | appends the nearest connected position above, or all of them, or reads the list at a negative index |
| TreeTopology.TreeTopology.GetNodeIndex | libdevcore/TreeTopology.cpp:178-193 | the position of this node, for negative start indices too |
| TreeTopology.TreeTopology.SelectNodes | libdevcore/TreeTopology.cpp:195-226 | whom a consensus node or an observer sends a message |
| TreeTopology.TreeTopology.SelectNodesByNodeID | libdevcore/TreeTopology.cpp:245-253 | the same for a start node that is looked up, known or not |
| TreeTopology.UnknownStart | libdevcore/TreeTopology.cpp:245-253 | for an unknown start everybody sends as if the last node were the start, and that node sends to nobody |
| TreeTopology.TreeTopology.SelectParent | libdevcore/TreeTopology.cpp:228-243 | from whom a consensus node asks for it; nobody for others; for every start index, or that the list is read at a negative one |
| TreeTopology.TreeTopology.SelectParentByNodeID | libdevcore/TreeTopology.cpp:254-259 | the same for a start node that is looked up, known or not |
| TreeTopology.UnknownParent | libdevcore/TreeTopology.cpp:147-259 | for an unknown start: the nearest connected node above but for the root, the bad read exactly when there is none, and always when all are asked for; the exception for a list of one |
| TreeTopology.UnknownParentExample | libdevcore/TreeTopology.cpp:147-259 | two nodes, of which the first is not connected, and the bad read |
| TreeTopology.PositionIsUnique | libdevcore/TreeTopology.cpp:85-88 | positions and list indices determine each other under the rotation |
| TreeTopology.SelectIdsAreIds | libdevcore/TreeTopology.cpp:98-136 | selecting node ids is selecting positions of the rotated tree |
| TreeTopology.EveryoneConnected | libdevcore/TreeTopology.cpp:85-136 | with all nodes connected, the node p places behind the start sends to exactly those p * w + 1 to p * w + w places behind it, in order |
| TreeTopology.ParentChildDuality | libdevcore/TreeTopology.cpp:147-243 | a connected node v is selected by a connected node u exactly when u is the one node that v selects as parent |
| NodeBroadcast.EveryNodeReached | libdevcore/TreeTopology.cpp:178-226 | when every node sends a message on to what selectNodes gives it, every other connected node receives it exactly once, in whatever order messages arrive, for every width and start index, and after as many arrivals as nodes none is under way |
| NodeBroadcast.OutsiderIsSilent | libdevcore/TreeTopology.cpp:201-206 | who is outside the list and did not start the message sends it to nobody |
| NodeBroadcast.ObserversDoNotMatter | libdevcore/TreeTopology.cpp:195-226 | with any observers among the receivers, every other connected node still receives the message exactly once |
| Broadcast.SelectReaches | libdevcore/TreeTopology.cpp:98-136 | forwarding from a position reaches each connected position below it once and no other |
| Broadcast.SelectSees | libdevcore/TreeTopology.cpp:98-136 | a position selects exactly the connected positions below it with none connected between, each once |
| Broadcast.SeesIsNearest | libdevcore/TreeTopology.cpp:147-176 | those whose nearest connected position above is that one |
| Broadcast.DeliverKeeps | libdevcore/TreeTopology.cpp:195-226 | one delivery changes neither who will have received the message nor how often |
| Broadcast.BroadcastCovers | libdevcore/TreeTopology.cpp:195-226 | started at the root, a broadcast in any order of arrival gives every connected position one message, never two, and ends |
| NodeBroadcast.ObserverSends | libdevcore/TreeTopology.cpp:201-218 | the nodes that selectNodes gives an observer, in terms of positions |
| NodeBroadcast.ObserverReachesNodes | libdevcore/TreeTopology.cpp:201-218 | exactly which nodes a message from an observer reaches, once each |
| NodeBroadcast.ObserverCoversOnlyAtZero | libdevcore/TreeTopology.cpp:213-216 | it reaches all connected nodes, whichever they are, exactly for start index 0 |
| ContractAbi.Serialise | libethcore/ABI.cpp:81-138 | the encoding of the specification, for every type |
| AbiBytes.ScalarsAreNumbers | libethcore/ABI.cpp:81-119 | the 32 bytes of a number, a truth value or an address stand for that number, in two's complement if it is signed and negative |
| AbiBytes.StringIsFilled | libethcore/ABI.cpp:121-138 | the length in 32 bytes, the content, and fewer than 32 zeros up to a multiple of 32 |
| AbiBytes.ElementsAreTuples | libethcore/ABI.h:400-444 | an array is the tuple of its elements, and a vector has their number in front |
| AbiBytes.Dave | libethcore/ABI.h:379-390 | all bytes of the arguments "dave", true and [1, 2, 3]: heads with the offsets 0x60 and 0xa0, then the string and the vector |
| ContractAbi.SerialiseElements | libethcore/ABI.h:400-444 | the loops of arrays and vectors give the heads and tails of the tuple of elements |
| ContractAbi.ContractABI.AbiIn | libethcore/ABI.h:379-390 | the selector, if there is one, and the tuple of the arguments |
| ContractAbi.ContractABI.AbiInAux | libethcore/ABI.h:310-329 | one argument after the other completes heads and tails |
| ContractAbi.ContractABI.Deserialise | libethcore/ABI.h:446-494 | what the reader finds at an offset, or the exception for an offset outside the data |
| ContractAbi.ContractABI.AbiOut | libethcore/ABI.h:353-367 | the arguments, or failure |
| ContractAbi.ThereAndBack | libethcore/ABI.h:353-390 | abiOut after abiIn gives the arguments back exactly when their signed numbers are in range |
| AbiRoundTrip.DecEnc | libethcore/ABI.h:446-494 | wherever an encoded value stands, the reader finds it |
| AbiRoundTrip.HeadFound | libethcore/ABI.h:168-196 | every head is at the place that the static offsets give |
| AbiRoundTrip.TailFound | libethcore/ABI.h:331-350 | every dynamic offset lands on its tail |
| AbiRoundTrip.EncSize | libethcore/ABI.h:147-165 | a static value takes as many words as its Length says |
| AbiRoundTrip.SignedIsRead | libethcore/ABI.cpp:140-156 | a signed number is read back unchanged exactly from -7 * 2^252 up to, but not including, 9 * 2^252 |
| AbiRoundTrip.SignThresholdExample | libethcore/ABI.cpp:140-156 | one below that range is read as a positive number |
| AbiRoundTrip.RoundTrip | libethcore/ABI.h:353-390 | the reader gives back what was written, up to the sign threshold, and the very same exactly when all signed numbers are in range |
| Chain.WrittenChain | libblockchain/BlockChainImp.cpp:1342-1516 | writing a block on its parent, with the transactions entered in any order, gives a chain one longer, with the right counts of all and of failed transactions and the right transaction table, and changes no block below |
| Chain.CountsOfChain | libblockchain/BlockChainImp.cpp:1357-1410 | in a chain the stored counts are the number of places (height, index) with a transaction and the number of those whose receipt tells of a failure |
| Chain.CommittedTxIsFound | libblockchain/BlockChainImp.cpp:907-934 | a committed transaction that shares its hash with no different one is found by it exactly when the height that is entered for it is not above number() |
| Chain.FoundTxIsCommitted | libblockchain/BlockChainImp.cpp:907-934 | a hash finds a transaction exactly when one with that hash is committed and entered for a height up to number(), and what it finds is one of those |
| ChainRuns.StepKeeps | libblockchain/BlockChainImp.cpp:1549-1677 | every step of every call of commitBlock keeps the invariant and only appends to the chain |
| ChainRuns.ReadStepKeeps | libblockchain/BlockChainImp.cpp:198-256 | every step of every call of getBlock keeps it and changes no table |
| ChainRuns.LookupStepKeeps | libblockchain/BlockChainImp.cpp:907-934 | every step of every call of getTxByHash keeps it and changes no table |
| ChainRuns.RecheckKeeps | libblockchain/BlockChainImp.cpp:1574-1578 | if the number is still right under the lock, the parent hash that was read outside it is that of the current block |
| ChainRuns.ChainSurvives | libblockchain/BlockChainImp.cpp:1536-1677 | after any interleaving and any failures: a chain that continues the old one, every block that returned OK at its height, and no new block that no call put there; its counts are the numbers of its transactions and of its failed ones; number() is its height exactly when no call is between dbCommit and the update of the number, and transactions are found exactly up to number() |
| ChainRuns.NumberIsBehind | libblockchain/BlockChainImp.cpp:335-345 | number() is the height of the chain, or one less exactly while a call is in that window |
| ChainRuns.NewTxIsHidden | libblockchain/BlockChainImp.cpp:868-934 | the step into that window enters the new transactions, and none of them can be found |
| TxSearch.SearchesAreRight | libblockchain/BlockChainImp.cpp:907-934 | after any interleaving: what getTxByHash returns is a transaction of the chain with that hash, and nothing comes back only for a hash that was not entered at first or that a later block has, too |
| TxSearch.SearchedAlone | libblockchain/BlockChainImp.cpp:907-934 | a call that nothing interrupts returns what the tables say up to number() |
| ChainRuns.OneWinner | libblockchain/BlockChainImp.cpp:1536-1547 | calls for different blocks of one height do not both return OK |
| ChainRuns.ReadsAreRight | libblockchain/BlockChainImp.cpp:198-256 | after any interleaving: getBlock returns the stored block with that hash, cached or not, and none only for a hash that was not stored at first |
| BlockChainImp.BlockChain.Number | libblockchain/BlockChainImp.cpp:335-362 | the cached number, or the height of the stored chain, which is then cached |
| BlockChainImp.BlockChain.NumberHash | libblockchain/BlockChainImp.cpp:458-472 | the hash of the block of that height, for exactly the heights of the chain |
| BlockChainImp.BlockChain.IsBlockShouldCommit | libblockchain/BlockChainImp.cpp:1536-1547 | whether the number is one above number() |
| BlockChainImp.BlockChain.CommitBlock | libblockchain/BlockChainImp.cpp:1549-1677 | only a block that continues the chain is stored, and it is added to the block cache then; every other call returns its error or throws and changes nothing |
| BlockChainImp.ExecutiveContext.WriteTotalTransactionCount | libblockchain/BlockChainImp.cpp:1357-1410 | the counts grow by the transactions of the block and by its failed ones, from zero if there was no entry |
| Blocks.FailuresAreCounted | libblockchain/BlockChainImp.cpp:1385-1392 | the failed transactions of a block are as many as its places with a receipt that tells of a failure |
| BlockChainImp.ExecutiveContext.WriteTxToBlock | libblockchain/BlockChainImp.cpp:1418-1480 | in whatever order, every transaction of the block is entered at a place where one with its hash stands, and every other entry stays |
| BlockChainImp.BlockChain.GetBlock | libblockchain/BlockChainImp.cpp:198-256 | the stored block or none, whether it was cached or not, and it is cached afterwards |
| BlockChainImp.BlockChain.GetBlockByNumber | libblockchain/BlockChainImp.cpp:181-196 | the block of that height, for exactly the heights up to number() |
| BlockChainImp.BlockChain.TxByHash | libblockchain/BlockChainImp.cpp:907-934 | what the tables say for the hash up to number(), which may be one behind, through the block cache |
| BlockChainImp.CommitAlone | libblockchain/BlockChainImp.cpp:1549-1677 | the code of one call, uninterrupted, and a call of the state machine end with the same tables, result or exception, and block cache |
| BlockChainImp.WindowIsReached | libblockchain/BlockChainImp.cpp:1606-1632 | a call that commits passes through a state in which nothing new in its block can be found |
| BlockCache.BlockCache.Add | libblockchain/BlockChainImp.cpp:56-89 | what is evicted or cleared and what is entered; no null pointer survives, keys stay queued, and there is at most one entry more than the size |
| BlockCache.BlockCache.Get | libblockchain/BlockChainImp.cpp:91-106 | a hit is a block with that hash |
| BlockCache.HitWasAdded | libblockchain/BlockChainImp.cpp:56-106 | after any sequence of additions a hit is a block that was added under that hash, or was there before, and the last block is a hit |
| BlockCache.ClearsAtOrphan | libblockchain/BlockChainImp.cpp:60-79 | a full cache is cleared exactly when its oldest queued hash has no entry |
| BlockCache.Orphans | libblockchain/BlockChainImp.cpp:60-85 | exactly when a queued hash has no entry after an addition |
| BlockCache.SpreadIsRecent | libblockchain/BlockChainImp.cpp:56-89 | while no hash comes twice within eleven additions, the cache is the last eleven blocks in order |
| BlockCache.FilledExactlyWhenSpread | libblockchain/BlockChainImp.cpp:56-89 | the cache always holds as many blocks as it has room for exactly in that case |
| BlockCache.ClearedExample | libblockchain/BlockChainImp.cpp:60-79 | after the additions 1, 1, 2, ..., 11 the addition of 12 drops block 1 alone and that of 13 drops everything else |
| Framing.FrameDecodes | libchannelserver/ChannelMessage.h:72-117 | an encoded message is decoded to itself, whatever bytes follow |
| Framing.HeaderBytes | libchannelserver/ChannelMessage.h:89-117 | decoding in numbers: what the first four bytes decide against 100 MB, the bytes at hand and 42, and where the fields are |
| Framing.FrameOfA | libchannelserver/ChannelMessage.h:72-85 | the 43 bytes of a message of kind 0x12 with the result -1 and the data "a" |
| Framing.DecodedIsFrame | libchannelserver/ChannelMessage.h:89-117 | whatever is decoded is a message that can be sent, and the bytes are its frame |
| Framing.PartDecodes | libchannelserver/ChannelMessage.h:89-107 | a proper part of a message asks for more bytes |
| Framing.ChunksDoNotMatter | libchannelserver/ChannelSession.cpp:243-276 | however any bytes are cut into reads, the same messages are delivered and the session ends alike |
| Framing.FramingDelivers | libchannelserver/ChannelSession.cpp:243-276 | sent messages are delivered exactly, and exactly the undelivered part is kept |
| Framing.DrainIsFrames | libchannelserver/ChannelSession.cpp:243-276 | the bytes are the frames of what is delivered and then what is kept, and the status tells what that begins with |
| Framing.StopsExactly | libchannelserver/ChannelSession.cpp:230-299 | however the bytes are cut, the session stops without a disconnection exactly when a header with a length below its own follows some messages |
| Framing.DisconnectsExactly | libchannelserver/ChannelSession.cpp:264-271 | it disconnects exactly when a header with a length above the limit does |
| Framing.ZerosStop | libchannelserver/ChannelMessage.h:89-113 | 42 zeros stop the session |
| Framing.ChannelMessage.Encode | libchannelserver/ChannelMessage.h:72-85 | the frame is appended to the buffer |
| Framing.ChannelMessage.DecodeAMOP | libchannelserver/ChannelMessage.h:89-117 | the message and its length, a request for more, an illegal length, or the exception |
| Framing.ChannelSession.OnRead | libchannelserver/ChannelSession.cpp:230-281 | one read delivers everything that is complete and keeps the rest |

## Left out

- The contents of transactions, the EVM, precompiled contracts and how key lists are computed: a transaction is a program over its keys.
- Exceptions thrown by an execution, process exit, time-outs and condition variables: a worker that waits may return at any time with INVALID_ID while the queue is empty.
- 32-bit wrap-around of vertex ids and counters: the number of transactions is below INVALID_ID, and the counters are proved not to exceed it.
- TxDag.DAG.TryPop: waiting, its time-out and giving up once everything is consumed; in the state machine a worker that finds no vertex may look again.
- TxDag.DAG.Init: one graph for each block, as the verifier creates them; `clear` leaves the queue as it is, so reuse is not modelled.
- TxDag.DAG.AddEdge: both ends are in range, which every caller is proved to respect; the guard of the source only covers the case that both are not.
- Hash functions: any function with 32 bytes; freedom from collisions is required only for the strings that are hashed.
- RlpReader.DecodeIsInverse: conversions of the reader other than to byte strings, lists and integers (sets, pairs, arrays, hashes) are not modelled.
- TrieHash.Hash256Rlp: keys below 2^31 nibbles and values below 2^62 bytes, since the source keeps lengths in unsigned and int.
- Merkle.GetHash256: the source moves the leaves out of the caller's vector; that its contents are gone afterwards is not modelled.
- MerkleWalk.ProofIsComplete: nothing is said about trees in which two node values are equal.
- TreeTopology.TreeTopology.SelectNodes: the width is at least 1, and before any node is known the start index is not positive, since the source divides by both. An observer that starts a message needs a start index that is not negative, since the source reads the list there.
- TreeTopology.TreeTopology.SelectParent: a read of the list at a negative index is an outcome of its own; what C++ makes of it is not modelled.
- NodeBroadcast.EveryNodeReached: all nodes have the same list of nodes and the same connections while a message is under way.
- TreeTopology: index products are taken not to overflow 64 bits.
- Abi.ToSize: offsets and lengths above 64 bits, which no encoding contains, are truncated; sums of offsets do not wrap. The types int and h256-like wrappers, and reading by a list of type names, are not modelled.
- ContractAbi.ContractABI.AbiOut: what the out-parameters hold after a failure.
- ChainRuns.ChainSurvives: every call brings its own context, whose tables read what is stored at the time of writing; a context is not used twice. Different blocks have different hashes. The zero hash that the source reads for a height that is not stored does not arise, since the current height always is. An exception leaves the call; that the process is then told to end is not modelled.
- BlockChainImp.BlockChain.CommitBlock: the table of block headers and the callback for a new block.
- BlockChainImp.ExecutiveContext.WriteTxToBlock: the table of nonces.
- BlockCache: the thread that destroys evicted blocks.
- Framing.ChannelMessage.Encode: sequences of other than 32 bytes, which the reader would cut differently, are encoded but nothing is proved about reading them.
- Sockets, storage engines, sessions, RPC, sealing, consensus and logging.
