# Verified models of the go-epvchain core

This project models the parts of the repository whose correctness rests on an invariant over
unbounded runs, and proves what they promise. Each module follows one source file or one
component:

- `Hex`, `Rlp`, `RlpRaw`, `RlpEncoder`, `RlpStream`: the hex-prefix keys of `fast/encoding.go` and
  the RLP codec of `process/`, with its deferred list headers and its pull parser.
- `Tree`, `TreeInsert`, `TreeDelete`: the Merkle Patricia trie as a value, and the uniqueness of its
  canonical shape.
- `Node`, `Decoding`, `Memory`, `Trie`, `Binding`: nodes in memory with lazily loaded references and
  cached hashes, the trie object that updates them, and what a root hash says about the contents.
- `Proof`, `Circling`, `NodeSet`: Merkle proofs and proof stores.
- `Preorder`, `Iterator`, `Difference`: the stack iterator and the difference of two tries.
- `Closure`, `SyncState`, `Sync`, `Database`, `CachedTrie`, `Bags`: the trie downloader and the
  reference-counted node cache.
- `Ancestry`, `HeaderChain`, `BlockChain`: fork choice, the canonical index and the transaction
  lookup index.
- `NonceHeap`, `TxList`, `Sorting`, `Gas`: transaction lists, and gas and fee accounting over a block.
- `WeightTree`, `RandSelect`, `Peer`: weighted random selection, and message code negotiation.

Code that updates objects is modelled by classes with the same fields; loops stay loops. Each such
method is tied by its contract to a function or predicate on values, and the theorems are about
those.

Assumptions, all visible in the contracts:

- Hash functions are parameters. Freedom from collisions is assumed only for the blobs, headers or
  blocks of one run (`Universe`, `Distinct`), never for all byte strings, and every blob is shorter
  than 2^64 bytes.
- Clocks, coins, random numbers, the virtual machine, leaf callbacks and the outcome of disk writes
  are parameters. A leaf callback that refuses a leaf asks for nothing, as the one in
  `kernel/state/sync.go` does. The machine returns no more gas than it got.
- In the node cache, what a node refers to is given by its hash (`World`): its own references and
  those a leaf callback adds. References form no cycle.
- `BlockChain` and `HeaderChain` get properly numbered headers; on one chain no transaction repeats.

Where the code does less than one might expect, the model follows the code:

- A raw entry is stored without looking at it. If its bytes happen to be a trie node, closure under
  references can fail: `Sync.RawAnswerDangles` is such a run, and `Sync.TrieSync.ProcessOne` says
  exactly which answers cause it.
- A reorganisation to a shorter chain leaves index entries above the head (`BlockChain.ShorterHead`).
  `BlockChain.BlockChain.WriteBlockWithState` says exactly when; `HeaderChain` removes them.
- Two nodes that are embedded in their parents show no hash, so the difference iterator takes them
  for equal if their paths are, and compares what is below them (`Difference.ReportedExact`). What
  it says about inner nodes is for roots whose hash is not the one of the empty trie
  (`Difference.ClearWithin`).
- The downloader does not show the callback a leaf that is embedded in its parent
  (`Sync.OwnLeafShown`), so `Sync.CallbackServed` is about the other leaves.
- `decodeNode` fails with an index out of range on an empty key (`Decoding.EmptyKeyFaults`), and
  `Decoding.DecodeOutcome` says exactly on which bytes.
- The loop of `VerifyProof` need not end (`Circling.SelfLinkCircles`). `Circling.AlwaysEndsIff` says
  on which blobs it always does: those without a cycle of references that use up no key.

`dafny verify dfyconfig.toml` checks the whole project.

## Model

| member | source | states |
|---|---|---|
| `Hex.KeybytesToHex` | fast/encoding.go:33-42 | the loop yields the nibbles of every byte followed by the terminator 16 |
| `Hex.KeyHexInjective` | fast/encoding.go:33-42 | different byte keys have different hex keys |
| `Hex.HexToKeybytes` | fast/encoding.go:44-54 | packs the nibbles back; on a terminated key it inverts KeybytesToHex |
| `Hex.DecodeNibbles` | fast/encoding.go:56-60 | fills the buffer from the start position with packed nibbles and touches nothing before it |
| `Hex.HexToCompact` | fast/encoding.go:4-19 | the buffer loop computes the hex-prefix form of Yellow Paper appendix C |
| `Hex.CompactRoundTrip` | fast/encoding.go:4-31 | expanding the compact form returns every valid hex key, odd or even, terminated or not |
| `Hex.CompactInjective` | fast/encoding.go:4-31 | different hex keys have different compact forms |
| `Hex.ComputePrefixLen` | fast/encoding.go:62-73 | the loop finds the length of the common prefix |
| `Hex.PrefixLenUnique` | fast/encoding.go:62-73 | that length is the only one at which the keys agree and then part or end |
| `Rlp.HeaderReads` | process/decode.go:722-763 | a canonical header of any kind and size is read back with its kind, tag length and size |
| `Rlp.ReadIsHeader` | process/decode.go:722-787 | any header that is accepted is the canonical header of what it says: no leading zeros, no long form for a short size |
| `Rlp.ParseSound` | process/decode.go:394-416 | bytes accepted by the generic decoder are exactly the encoding of the result |
| `Rlp.ParseComplete` | process/decode.go:394-416 | the encoding of any value, followed by anything, decodes to that value |
| `Rlp.DecodeIffEncode` | process/decode.go:30-40 | a byte string decodes to a value if and only if it is the encoding of that value |
| `Rlp.EncodePrefixFree` | process/encode.go:68-88 | no encoding is a proper prefix of another: values and remainders are determined |
| `RlpStream.Stream.WillRead` | process/decode.go:815-833 | refuses a read past the list or input limit and charges the innermost list and the input otherwise |
| `RlpStream.NestedAdvance` | process/decode.go:815-833 | a read within the limit keeps every list position at most its size and every inner end within the outer one |
| `RlpStream.NestedPush` | process/decode.go:603-615 | entering a list that fits keeps the stack nested, and the list end becomes the limit |
| `RlpStream.NestedPop` | process/decode.go:617-632 | leaving a finished list charges its size to the outer list without underflow and stays within its limit |
| `RlpStream.Stream.ReadUint` | process/decode.go:765-787 | reads a big-endian size of up to eight bytes, refuses a leading zero, gives zero for no bytes, and never passes the limit |
| `RlpStream.Stream.ReadKind` | process/decode.go:722-763 | the pull reader sees the same header, or the same error, as the header reader on the bytes up to the limit |
| `RlpStream.Stream.NextKind` | process/decode.go:692-720 | the kind is read once, kept until the value is taken, and the end of a list is reported |
| `RlpStream.Stream.GetBytes` | process/decode.go:505-526 | returns the string at the position and moves past it, refuses lists and non-canonical single bytes |
| `RlpStream.Stream.EnterList` | process/decode.go:603-615 | pushes a list frame of the announced size, refuses strings |
| `RlpStream.Stream.ListEnd` | process/decode.go:617-632 | pops the frame exactly at the end of the list and reports anything else; the outer frames keep their ends |
| `RlpStream.Stream.DecodeInterface` | process/decode.go:394-416 | returns the parsed value and stops behind it, or the first error of the parse, at any nesting |
| `RlpStream.Stream.DecodeList` | process/decode.go:215-228 | the same for a list |
| `RlpStream.Stream.DecodeElems` | process/decode.go:230-257 | the element loop stops at the end of the list with all elements, or at the first error |
| `RlpStream.DecodeBytes` | process/decode.go:30-40 | succeeds if and only if the input is the encoding of a value, and returns that value; trailing bytes are refused |
| `RlpRaw.CountValues` | process/raw.go:47-57 | the loop counts the values of a buffer, or fails |
| `RlpRaw.SplitEncode` | process/raw.go:17-45 | splitting an encoding followed by anything recovers kind, content and the rest |
| `RlpRaw.CountEncodeAll` | process/raw.go:47-57 | a concatenation of encodings counts its elements |
| `RlpRaw.RawAgrees` | process/raw.go:59-128 | the raw reader accepts a header if and only if the stream reader does and it is not a lone byte with a header; kinds and extents agree |
| `RlpEncoder.IntSize` | process/encode.go:550-556 | the loop gives the length of the big-endian form |
| `RlpEncoder.EncBuf.EncodeString` | process/encode.go:118-137 | appends the appendix B form of a string |
| `RlpEncoder.EncBuf.List` | process/encode.go:139-143 | opens a list header at the current offset with the header bytes seen so far |
| `RlpEncoder.EncBuf.ListEnd` | process/encode.go:145-152 | the deferred size counts the nested headers: it is the length of what the list will emit |
| `RlpEncoder.EncBuf.Encode` | process/encode.go:109-116 | whatever was in the buffer, the part added emits the recursive encoding of the value |
| `RlpEncoder.EmitLength` | process/encode.go:154-156 | string bytes plus header bytes is the length of the output |
| `RlpEncoder.EmitList` | process/encode.go:139-152 | a header with the right size in front of the emitted items is the encoding of the list |
| `RlpEncoder.EncBuf.ToBytes` | process/encode.go:158-174 | the array filled by interleaving strings and headers is the output |
| `RlpEncoder.EncBuf.ToWriter` | process/encode.go:176-198 | the pieces handed to a writer concatenate to the same output; if the writer fails, what it took is the beginning of it |
| `RlpEncoder.EncReader.Next` | process/encode.go:228-260 | each piece is non-empty and the pieces left over follow it |
| `RlpEncoder.EncReader.Read` | process/encode.go:207-226 | fills any buffer with the next bytes of the output and reports the end exactly when it is reached |
| `RlpEncoder.EncodeToBytes` | process/encode.go:37-45 | equals the recursive encoding |
| `RlpEncoder.EncodeToWriter` | process/encode.go:23-35 | writes the recursive encoding, or its beginning if the writer fails |
| `RlpEncoder.EncodeToReader` | process/encode.go:47-55 | announces the length of the encoding, and reads with any buffer sizes concatenate to it |
| `Tree.Unique` | fast/trie.go:153-317 | canonical tries (no extension under an extension, two children or more in a branch, terminated keys) with the same contents are the same trie |
| `TreeInsert.InsertCanon` | fast/trie.go:153-217 | inserting keeps the canonical shape |
| `TreeInsert.InsertLookup` | fast/trie.go:153-217 | inserting changes exactly one key of the finite map |
| `TreeDelete.DeleteCanon` | fast/trie.go:235-317 | deleting keeps the canonical shape, with every case of merging a lone child |
| `TreeDelete.DeleteLookup` | fast/trie.go:235-317 | deleting removes exactly one key of the finite map |
| `TreeDelete.RunSound` | fast/trie.go:135-151 | any sequence of updates, an empty value deleting, stores the map it describes |
| `TreeDelete.HistoryIndependent` | fast/trie.go:135-317 | two sequences of updates that end in the same contents give the same trie |
| `TreeDelete.SameTreeSameContents` | fast/trie.go:135-317 | and only these do |
| `Node.DecodeStored` | fast/node.go:96-157 | decoding the stored form of a node returns the collapsed node: key round trip, embedded children in place, others as references |
| `Node.DecodeStoredRef` | fast/node.go:159-181 | the same for a child reference: empty, digest or embedded node |
| `Node.FillKids` | fast/node.go:138-146 | the child-filling loop decodes the sixteen references, or fails with the first that fails |
| `Decoding.DecodeOutcome` | fast/node.go:96-181 | on any bytes decoding accepts exactly what consists of node-shaped items, and fails with an index out of range exactly on a pair with an empty key, or with such a node embedded where nothing before it is malformed |
| `Decoding.EmptyKeyFaults` | fast/node.go:116-122 | a pair of empty strings is such an input |
| `Decoding.BrokenTailFaults` | fast/node.go:116-122 | and so is a pair whose second item is malformed inside |
| `Closure.KidsOfTree` | fast/node.go:96-181 | the references of a stored node are the digests of its hashed children |
| `Closure.ClosedHoldsTree` | fast/trie.go:326-343 | a store that is closed under references and holds a root holds its whole trie |
| `Closure.DecodedShape` | fast/node.go:96-157 | a decoded node has at most one value, as its last child |
| `Memory.LoadedRepr` | fast/node.go:96-181 | what is loaded stands for the tree that was stored, with a correct cached hash |
| `Memory.LoadedCached` | fast/node.go:96-181 | a loaded node and what is embedded in it carry every hash they should |
| `Memory.Fetched` | fast/database.go:87-98 | the store answers the digest of a tree node with that node |
| `Trie.LoadNode` | fast/trie.go:333-343 | a reference resolves to a node for the same tree; it fails only if the digest is not stored |
| `Trie.Trie.Resolve` | fast/trie.go:326-331 | resolving never changes what a node stands for |
| `Trie.Trie.Get` | fast/trie.go:91-127 | lookup on any partially unloaded trie equals lookup in the map; nodes loaded on the way stand for the same tree |
| `Trie.Trie.TryGet` | fast/trie.go:82-89 | returns the stored value or absence, never fails on a complete trie, and keeps the map |
| `Trie.Trie.Insert` | fast/trie.go:153-217 | refines insertion on any partially unloaded trie, and is clean exactly when the value was there already |
| `Trie.Trie.Delete` | fast/trie.go:235-317 | refines deletion, and is clean exactly when the key was absent |
| `Trie.Trie.Collapse` | fast/trie.go:266-292 | a branch left with one child merges with it, loading it if needed; otherwise it stays |
| `Trie.Trie.TryUpdate` | fast/trie.go:135-151 | one update of the map; on an error nothing changes |
| `Trie.Trie.TryDelete` | fast/trie.go:225-233 | one deletion of the map; on an error nothing changes |
| `Trie.Trie.StoreNode` | fast/hasher.go:126-183 | nodes below 32 bytes are embedded unless forced, others get the hash of their encoding and are stored on commit |
| `Trie.Trie.HashChildren` | fast/hasher.go:79-124 | the collapsed node is the stored form of the tree; the kept node stands for the same tree |
| `Trie.Trie.HashNode` | fast/hasher.go:38-77 | the reference is the hash or the embedding of the current contents; cached hashes stay correct, unloading loses nothing, and after a commit everything below is stored |
| `Trie.Trie.Hash` | fast/trie.go:347-351 | the root hash of the contents; the store is not touched |
| `Trie.Trie.Commit` | fast/trie.go:353-373 | the root hash of the contents; the store only grows and then holds the whole trie |
| `Trie.Trie.Open` | fast/trie.go:52-68 | opens a stored trie by its root; fails only if the root is not stored |
| `Trie.Play` | fast/trie.go:82-373 | over any run of reads, updates, hashes, commits and unloads every read answers like the map, and the final root is that of the map |
| `Trie.SameMapSameRoot` | fast/trie.go:347-373 | runs that describe the same map have the same root hash |
| `Binding.RootBinds` | fast/trie.go:347-351 | two tries of one collision-free run have the same root hash if and only if they are the same |
| `Binding.RootIffContents` | fast/trie.go:347-351 | root hashes are equal if and only if the maps are |
| `Proof.Prove` | fast/proof.go:15-65 | the proof is the stored form of every hashed node on the path, root first, without the first levels asked to be skipped |
| `Proof.GetFrom` | fast/proof.go:97-119 | the walk loop follows the key to a value, nothing, or the next digest |
| `Proof.VerifyProof` | fast/proof.go:71-95 | the loop, cut off after some rounds, computes the verification function |
| `Proof.VerifySound` | fast/proof.go:71-95 | against any set of blobs keyed by their hash, verification finds a node missing or returns exactly what the trie holds, and never needs more steps than the key is long |
| `Proof.VerifyComplete` | fast/proof.go:71-95 | if the nodes of the path are there, verification returns exactly the value or absence |
| `Circling.AlwaysEndsIff` | fast/proof.go:71-95 | on a set of blobs the loop ends for every root and key if and only if no references that use up no key form a cycle |
| `Circling.EndsUnlessCycle` | fast/proof.go:71-95 | for one root and key it ends if and only if it comes by no digest on such a cycle |
| `Circling.ShortCycle` | fast/proof.go:71-95 | cycles no longer than the number of blobs are all that has to be looked for |
| `Circling.EndsIff` | fast/proof.go:71-95 | a loop that ends does so within one round more than there are pairs of a blob and a length of the remaining key |
| `Circling.AnswerStays` | fast/proof.go:71-95 | once there is an answer, more rounds do not change it |
| `Circling.SelfLinkCircles` | fast/proof.go:71-95 | on a blob that refers to itself under an empty key the loop never ends |
| `NodeSet.NodeSet.Put` | simple/nodeset.go:28-42 | keeps the first value of a key, the order of insertion and the total size |
| `NodeSet.NodeSet.NodeList` | simple/nodeset.go:73-82 | lists the values in order of insertion |
| `NodeSet.FromList` | simple/nodeset.go:95-105 | storing a list files every blob under its hash |
| `NodeSet.StoreAllSound` | simple/nodeset.go:93-105 | such a set is keyed by the hash of its contents |
| `NodeSet.ProofChecks` | fast/proof.go:15-95 | for a non-empty trie the proof from level zero verifies to the value or absence |
| `NodeSet.ProveAndVerify` | fast/proof.go:15-95 | proving and verifying against the root hash returns what the trie holds |
| `Preorder.PreSorted` | fast/iterator.go:142-276 | nodes in preorder have strictly increasing paths |
| `Preorder.LeavesAreContents` | fast/iterator.go:142-276 | the leaves of the preorder are the contents of the trie |
| `Iterator.NodeIterator.Next` | fast/iterator.go:142-159 | moves to the first node still to come, or past the subtree if not descending; ends exactly when nothing is left; a missing node loses nothing |
| `Iterator.NodeIterator.Seek` | fast/iterator.go:161-177 | what is left afterwards is everything from the start nibbles on |
| `Iterator.NodeIterator.Peek` | fast/iterator.go:179-212 | finds and loads the next node, popping finished frames |
| `Iterator.NodeIterator.NextChild` | fast/iterator.go:226-262 | finds the next child of the node on top |
| `Iterator.NodeIterator.Push` | fast/iterator.go:264-270 | moves to the node found |
| `Iterator.NodeIterator.Pop` | fast/iterator.go:272-276 | goes back to the parent and its path |
| `Iterator.NodeIterator.ResolveFrame` | fast/iterator.go:214-224 | loads a frame that is a reference, which then shows the hash of its node; fails exactly if the node is missing |
| `Iterator.CollectLeaves` | fast/iterator.go:142-276 | collects the leaves from the start on; on a complete trie it always finishes |
| `Iterator.LeavesExact` | fast/iterator.go:142-276 | these are exactly the stored pairs whose path is not below the start, each once, in strictly increasing order |
| `Difference.CompareNodes` | fast/iterator.go:278-294 | path, then hash, then leaf value; zero only if all agree |
| `Difference.Compared` | fast/iterator.go:278-294 | equal positions with equal hashes are equal subtrees, equal leaves hold equal values |
| `Difference.ComparedAll` | fast/iterator.go:278-294 | zero exactly if path, hash and value agree; otherwise the order of the paths, wherever they differ |
| `Difference.DifferenceIterator.constructor` | fast/iterator.go:302-309 | starts in front of the second trie with the first one advanced |
| `Difference.DifferenceIterator.Next` | fast/iterator.go:335-373 | reports the next node of the second trie that differs from every node of the first in path, hash or value, whether inner node or leaf, and ends exactly when none is left; counts the nodes visited in both |
| `Difference.DifferenceIterator.AdvanceBoth` | fast/iterator.go:359-370 | equal nodes are passed by both iterators, with everything below them if they have a hash |
| `Difference.ShownAt` | fast/iterator.go:92-97 | the hash an iterator shows is that of its node; embedded nodes and leaves show none |
| `Difference.ClearWithin` | fast/iterator.go:179-188 | a root can be told from the empty trie if no blob collides with the encoding of that trie |
| `Difference.CollectDifference` | fast/iterator.go:302-373 | unless an iterator fails, the nodes reported are those of the second trie unlike all of the first, none if the tries are equal, and the leaves among them those that the first does not have |
| `Difference.ReportedExact` | fast/iterator.go:335-373 | a leaf or a node with a hash is reported if and only if the first trie does not have it, a node without a hash if and only if the first trie has none without at its path; once each, in order |
| `Difference.DifferenceExact` | fast/iterator.go:335-373 | these are exactly the pairs absent from or different in the first trie, once each, in strictly increasing order |
| `Sync.TrieSync.Start` | fast/sync.go:53-62 | starts with the root wanted, and present or requested |
| `Sync.TrieSync.Register` | fast/sync.go:81-92 | the request is linked to its parent, which waits for one answer more and is on record as needing it |
| `Sync.TrieSync.AddSubTrie` | fast/sync.go:64-93 | a root that is not empty is on record as needed by its parent, and is present or requested on its behalf; there is a request unless the root is in the batch or stored and decodes, and a new one has the depth and the callback given |
| `Sync.TrieSync.AddRawEntry` | fast/sync.go:95-122 | the same for content that is not looked at |
| `Sync.TrieSync.Missing` | fast/sync.go:124-130 | hands out the deepest hashes first and no request is forgotten |
| `Sync.TrieSync.Process` | fast/sync.go:132-173 | takes answers up to the first that is not accepted: each of these is in the batch or waits for something, and the one after them is not requested, answered before, undecodable, refused by its leaf callback, or makes the decoder fail |
| `Sync.TrieSync.ProcessOne` | fast/sync.go:136-171 | the outcome of an answer is exactly what the request, the decoder and the leaf callback say; an accepted one is in the batch or waits for something, and all its leaf asked for is on record; every new request comes from what the leaf asked for, as asked, or from a reference of the node, with the depth of the child and the callback of the node; starting without open raw entries, every prefix of the batch can be flushed if and only if the answer is not a raw one that reads as a node with an absent reference other than to itself |
| `Sync.RawAnswerDangles` | fast/sync.go:145-150 | such an answer: a store is flushed that holds a node and not what it refers to |
| `Sync.TrieSync.Children` | fast/sync.go:203-260 | the references that are not present, in order, and everything the callback asked for is on record |
| `Sync.AbsentRefs` | fast/sync.go:239-259 | the requests made are exactly the references of the node that are not present |
| `Sync.TrieSync.Settle` | fast/sync.go:262-278 | a node goes to the batch with its content once all it needs is present, and so do its ancestors that waited for nothing else |
| `Sync.TrieSync.Tell` | fast/sync.go:268-275 | a node that waited for one answer is in the batch when it comes |
| `Sync.TrieSync.Commit` | fast/sync.go:175-186 | writes the batch in order; if the writer stops anywhere the store is closed and nothing is lost |
| `SyncState.ScheduleOk` | fast/sync.go:192-201 | scheduling keeps the invariant: a request waits for exactly the links to it, and links lead to what is needed |
| `SyncState.Told` | fast/sync.go:268-276 | when the last answer is booked, everything the waiting node refers to or its leaf asked for is present |
| `SyncState.FlushClosed` | fast/sync.go:175-186 | after writing any prefix of the batch, everything a stored node refers to or its leaf asked for is stored |
| `SyncState.PrefixesClosedIff` | fast/sync.go:95-122 | with raw entries counted too, every prefix is closed if and only if each entry comes after what it needs |
| `Closure.EmbeddedHasNoRefs` | fast/sync.go:203-260 | a node embedded in its parent holds no hash reference, so direct references are all there are |
| `Sync.SyncComplete` | fast/sync.go:188-190 | with nothing pending and the batch written, a wanted trie is stored completely |
| `Sync.StoredRootComplete` | fast/sync.go:175-186 | at any time, a stored root has its whole trie stored |
| `Sync.AskedComplete` | fast/sync.go:64-122 | what the leaf of a stored node asked for is stored, and a trie among it is complete |
| `Sync.OwnLeafShown` | fast/sync.go:230-239 | the callback is shown the value of a leaf that is stored as a node of its own; one embedded in its parent is skipped with it |
| `Sync.CallbackServed` | fast/sync.go:203-260 | if every node of a stored trie was taken under a callback, what the callback asks for on any such leaf of it is stored, and a trie among that is complete |
| `Sync.SyncDrains` | fast/sync.go:188-190 | when every request is answered and no leaf refused, and needs form no cycle, nothing is pending |
| `Database.Database.constructor` | fast/database.go:47-55 | an empty cache over a closed disk |
| `Database.Database.Node` | fast/database.go:87-98 | answers exactly for what is cached or on disk, with the cached blob first |
| `Database.Database.Insert` | fast/hasher.go:147-182 | a node and its references enter the cache; only this node has new references, and exactly what it refers to now has as many parents more; size and closure are kept |
| `Database.Database.Create` | fast/database.go:68-77 | a new node has no references and adds its size |
| `Database.Database.Reference` | fast/database.go:139-151 | books one reference on both sides, at most once for a parent that is not the meta root, and nothing for an uncached child |
| `Database.Database.Release` | fast/database.go:168-190 | drops a reference and, with the last one, the node, on disk or not, and everything only it held: a node is dropped exactly when all its references are lost, the others lose exactly the references of the dropped nodes; nodes above are untouched |
| `Database.LostIs` | fast/database.go:168-190 | the references lost by a node are the one released and those held by the nodes dropped |
| `Database.Database.Dereference` | fast/database.go:153-166 | drops a root reference and exactly the nodes that lost all their references with it |
| `Database.Database.CommitNode` | fast/database.go:247-269 | children before parents: with the pending batch the disk is closed, and after every write it is closed by itself |
| `Database.Database.Uncache` | fast/database.go:271-283 | drops the node; whatever a dropped node referred to is not cached any more, and only nodes whose content is on disk go |
| `Database.Database.Commit` | fast/database.go:192-245 | no read changes; on success the node is on disk, and it and everything that was reachable from it through cached references is out of memory; it fails only after all writes that succeed are used up, and then the cache is as before |
| `Database.ReferencedReadable` | fast/database.go:139-190 | whatever a still referenced root reaches is in memory or on disk |
| `Database.ReadsClosed` | fast/database.go:87-98 | what can be read, from memory or disk, is closed under the references in the blobs |
| `CachedTrie.OpenReferenced` | fast/trie.go:52-68 | a trie whose root is referenced opens over the cache as itself, and no node of it is missing |
| `Database.Rooted` | fast/database.go:168-190 | no leak: a cached node that is not on disk hangs on the meta root, on a node never referenced, or on a node on disk |
| `HeaderChain.HeaderChain.constructor` | kernel/headerchain.go:47-82 | starts at the first header |
| `HeaderChain.HeaderChain.GetTd` | kernel/headerchain.go:254-266 | the sum of difficulties from the first header on; with another number only from the cache |
| `HeaderChain.HeaderChain.GetHeader` | kernel/headerchain.go:280-292 | the header of that hash; with another number only from the cache |
| `HeaderChain.HeaderChain.Evict` | kernel/headerchain.go:47-60 | the caches may forget anything at any time |
| `HeaderChain.HeaderChain.WriteHeader` | kernel/headerchain.go:95-156 | the index is defined exactly up to the current header and is its ancestor chain, the current header has maximal total difficulty for either coin, and unknown parents change nothing |
| `HeaderChain.HeaderChain.Truncate` | kernel/headerchain.go:118-124 | removes exactly the index entries above a height |
| `HeaderChain.HeaderChain.Rewrite` | kernel/headerchain.go:126-139 | ends at the fork point, at the latest at the first header, with the index on the new chain |
| `HeaderChain.HeaderChain.CheckContiguous` | kernel/headerchain.go:160-171 | accepts exactly the batches in which each header is the parent of the next |
| `HeaderChain.HeaderChain.InsertHeaderChain` | kernel/headerchain.go:205-231 | imports a batch; on a stop everything before it is known |
| `HeaderChain.FindCommonAncestor` | kernel/database_util.go:513-537 | the header at the last height at which two chains agree; none if and only if a header is missing before they meet |
| `BlockChain.BlockChain.constructor` | kernel/blockchain.go:338-360 | starts at the first block |
| `BlockChain.BlockChain.Insert` | kernel/blockchain.go:401-421 | the head and its index entry move; the header and fast heads follow if the entry changes |
| `BlockChain.BlockChain.WriteLookups` | kernel/database_util.go:387-404 | files every transaction of a block with its last place |
| `BlockChain.TxDifference` | kernel/types/transaction.go:289-304 | exactly the transactions of the first list that are not in the second, in order and as often |
| `BlockChain.BlockChain.Descend` | kernel/blockchain.go:1101-1114 | walks a chain down to a height and collects it |
| `BlockChain.BlockChain.Meet` | kernel/blockchain.go:1122-1140 | walks two chains of the same height down to their last common block and collects both |
| `BlockChain.BlockChain.InsertAll` | kernel/blockchain.go:1153-1162 | puts the new chain in place, oldest first, with its transactions filed |
| `BlockChain.BlockChain.Reorg` | kernel/blockchain.go:1080-1181 | index and lookup entries move from the old head to the new one |
| `BlockChain.MoveLookup` | kernel/blockchain.go:1153-1168 | filing the new chain and deleting what is only on the old one turns the exact lookup index of one head into that of the other |
| `BlockChain.BlockChain.WriteBlockWithState` | kernel/blockchain.go:744-856 | the index up to the head is its ancestor chain, the lookup index holds exactly its transactions at their places, the head is heaviest and never gets lighter, and when it moves; the current header and the fast head always agree with it; then the index above it is as before, so that it ends at the head if and only if it ended there before |
| `BlockChain.ShorterHead` | kernel/blockchain.go:744-856 | after three blocks, a block beside the second that outweighs it and the third becomes the head, and the index keeps an entry above it |
| `BlockChain.ShorterHeadExample` | kernel/blockchain.go:744-856 | such blocks exist |
| `NonceHeap.Push` | kernel/tx_list.go:21-23 | keeps the heap and adds one element |
| `NonceHeap.Pop` | kernel/tx_list.go:25-31 | removes the least element and keeps the heap |
| `NonceHeap.Remove` | kernel/tx_list.go:124-129 | removes the element at a position and keeps the heap |
| `NonceHeap.Init` | kernel/tx_list.go:84-88 | brings any sequence into heap order |
| `TxList.TxSortedMap.Put` | kernel/tx_list.go:50-56 | one entry of the map; heap and cache agree with it |
| `TxList.TxSortedMap.Forward` | kernel/tx_list.go:58-71 | removes everything below a nonce, returned in order; the cache is cut and stays the sorted contents |
| `TxList.TxSortedMap.Filter` | kernel/tx_list.go:73-93 | removes exactly what matches |
| `TxList.TxSortedMap.Cap` | kernel/tx_list.go:95-115 | keeps the lowest nonces, returns the others highest first; the cache is cut and stays the sorted contents |
| `TxList.TxSortedMap.Remove` | kernel/tx_list.go:117-134 | removes one nonce |
| `TxList.TxSortedMap.Ready` | kernel/tx_list.go:136-151 | takes the run of consecutive nonces from the least one if that is not above the start, all of it |
| `TxList.TxSortedMap.Flatten` | kernel/tx_list.go:157-170 | the contents in order of their nonces |
| `TxList.SortedUnique` | kernel/tx_list.go:157-170 | there is only one such sequence, so cached and fresh results agree |
| `TxList.TxList.Add` | kernel/tx_list.go:192-211 | replaces only with a higher price that also reaches the bump; the caps stay above everything |
| `TxList.TxList.Forward` | kernel/tx_list.go:213-215 | as the map, and leaves no gap |
| `TxList.TxList.Filter` | kernel/tx_list.go:217-239 | removes exactly what is over a limit, early exit included; a strict list also loses what comes after and keeps no gap |
| `TxList.NoneOver` | kernel/tx_list.go:219-221 | below the caps nothing can be over the limits |
| `TxList.TxList.Cap` | kernel/tx_list.go:241-243 | as the map, and leaves no gap |
| `TxList.TxList.Remove` | kernel/tx_list.go:245-256 | a strict list loses everything after the nonce and keeps no gap |
| `TxList.TxList.Ready` | kernel/tx_list.go:258-260 | from a list without gaps everything is taken |
| `Gas.GasPool.AddGas` | kernel/gaspool.go:11-17 | adds; the fault on overflow cannot occur where it is called |
| `Gas.GasPool.SubGas` | kernel/gaspool.go:19-25 | takes gas or refuses and changes nothing |
| `Gas.IntrinsicGas` | kernel/state_transition.go:45-75 | base price plus 68 and 4 per non-zero and zero byte, failing exactly when it does not fit a word |
| `Gas.IntrinsicIs` | kernel/state_transition.go:45-75 | 53000 for a contract creation after homestead, 21000 otherwise, 68 for each non-zero byte and 4 for each zero byte |
| `Gas.BoughtIs` | kernel/state_transition.go:126-187 | the sender pays for all the gas, a call raises its nonce by one, and nothing else changes |
| `Gas.SettledPays` | kernel/state_transition.go:197-217 | the sender gets back what was not used and the coinbase the fee; no other account changes |
| `Gas.FeeFlow` | kernel/state_transition.go:197-217 | per account: the coinbase earns the gas used at its price, the sender gets back the rest, or all if it is the coinbase itself |
| `Gas.StateTransition.BuyGas` | kernel/state_transition.go:126-143 | succeeds exactly with enough balance and pool, checked in this order; takes both |
| `Gas.StateTransition.RefundGas` | kernel/state_transition.go:203-217 | refunds the counter, but at most half of the gas used, to sender and pool |
| `Gas.FeesConserve` | kernel/state_transition.go:126-201 | what the sender pays, gets back and the miner earns adds up: the money supply changes by what the machine changes it by |
| `Gas.StateTransition.PreCheck` | kernel/state_transition.go:145-158 | passes exactly if the nonce fits, the balance covers the gas and the pool has it |
| `Gas.StateTransition.TransitionDb` | kernel/state_transition.go:160-201 | a message is accepted exactly if the nonce fits, gas can be paid for and is in the pool, it covers the intrinsic gas, and value can be moved; the first of these to fail is the error; it is charged what the machine used less the refund, which is at most half of it; the pool loses exactly that, the coinbase earns it at the gas price, the sender gets the rest back, no other account changes after the machine, and the money supply changes by what the machine changes it by |
| `Gas.ApplyTransaction` | kernel/state_processor.go:57-92 | the same outcome; the message is performed, and the receipt holds the gas used, the running total and whether it failed |
| `Gas.StepPays` | kernel/state_processor.go:57-92 | every transaction of a block pays in advance and is settled account by account in the same way |
| `Gas.Process` | kernel/state_processor.go:29-55 | each transaction is acceptable and performed on the state the last one left, and after every one of them pool and running total add up to the gas limit; it stops exactly at the first that is not acceptable there, with its error; the money supply changes by what the machine changes it by |
| `Gas.CourseUnique` | kernel/state_processor.go:29-55 | transactions run one way only |
| `Gas.Rejected` | kernel/state_processor.go:42-49 | a block with a transaction that is not acceptable where it is reached has no run past it |
| `Gas.CourseSupply` | kernel/state_processor.go:29-55 | at every point of a block the money supply differs by what the machine changed it by, and not at all on a machine that conserves it |
| `Gas.SetReceiptsData` | kernel/blockchain.go:612-632 | the amounts rebuilt add up to the running totals in word arithmetic, and exactly if and only if the totals never fall |
| `Gas.RebuiltIsRecorded` | kernel/blockchain.go:627-631 | from the totals of a processed block exactly its receipts are rebuilt |
| `Gas.ReceiptsRoundTrip` | kernel/state_processor.go:29-55 | processing a block, dropping the amounts and rebuilding them gives the receipts of the block |
| `WeightTree.HasOpen` | fc/randselect.go:76-83 | a node that is not full has a slot with room, so insertion never runs off the end |
| `WeightTree.InsertOk` | fc/randselect.go:76-101 | sums and counts stay exact at every level; a free index gets the item and no other index changes |
| `WeightTree.SetWeightOk` | fc/randselect.go:103-124 | the index gets the new weight, or is freed by zero, and no other index changes; sums and counts stay exact |
| `WeightTree.GrowOk` | fc/randselect.go:38-45 | a new root keeps every index and has room |
| `WeightTree.ChooseExact` | fc/randselect.go:126-139 | a number selects an index if and only if it lies in the interval that starts at the weight in front of it and is as long as its weight |
| `RandSelect.WrsNode.Insert` | fc/randselect.go:76-101 | the update in place, creating nodes on the way, is insertion into the tree |
| `RandSelect.WrsNode.SetWeight` | fc/randselect.go:103-124 | the update in place is the change of the tree, and the difference returned is that of the sums |
| `RandSelect.WrsNode.Choose` | fc/randselect.go:126-139 | the loop returns the item and weight at the selected index |
| `RandSelect.WeightedRandomSelect.SetWeight` | fc/randselect.go:29-48 | one entry of the item-to-weight map changes, zero removes it; indices stay valid |
| `RandSelect.WeightedRandomSelect.Choose` | fc/randselect.go:50-67 | terminates; each round draws by its first number and decides by its second, all rounds but the last refuse, and the last returns the item drawn, or the sum is zero |
| `RandSelect.DrawnFor` | fc/randselect.go:126-139 | an item is drawn for exactly as many numbers as its weight |
| `Peer.MatchProtocols` | peer/peer.go:268-290 | the loops compute the fold of the matches in name and version order |
| `Peer.Agreement` | peer/peer.go:268-290 | two ends whose shared protocols have equal lengths compute the same table |
| `Peer.NameOrder` | peer/protocol.go:46-48 | names are ordered by the first character in which they differ, a proper prefix first |
| `Peer.TableTiled` | peer/peer.go:268-290 | ranges are contiguous from 16 in the order of the names, do not overlap, and each name has the highest version that both ends have |
| `Peer.GetProto` | peer/peer.go:318-325 | finds the protocol of a code exactly if there is one |
| `Peer.Routed` | peer/peer.go:337-363 | a code shifted by one end reaches the same protocol with the same code at the other |

## Left out

- Proof.VerifyProof: the number of nodes used, its third result, is not returned. It takes a bound on the number of rounds; `Circling.EndsIff` and `Circling.AnswerStays` say which bound is enough on any blobs, and `Proof.VerifySound` that the key length is on blobs keyed by their hash.
- Trie.Trie.StoreNode: the leaf callback and the reference counts of the node cache are in `Database.Database.Insert` instead, and writing to memory does not fail.
- Trie.Trie.Commit: the same; its error is the one of `StoreNode`.
- Trie.Trie.Open: the tree that the root hash stands for is named by the caller, and the blobs of the store are keyed by their hash.
- Difference.DifferenceIterator.constructor: two different iterators that have not failed before, as the constructors of iterators return them.
- HeaderChain.HeaderChain.constructor: a chain with one header; reopening a chain from disk is not part of it.
- Sync.TrieSync.AddSubTrie: a parent has to be a request that was answered and whose leaf was not refused; the source only asks that it is a request, and all callers that name a parent are leaf callbacks of the answer being taken. Requests are referred to by hash instead of by pointer, which is the same as long as parents are outstanding, and that is part of the invariant.
- Sync.TrieSync.AddRawEntry: the same condition on its parent.
- Sync.TrieSync.Missing: priorities are compared as integers, not as 32-bit floats.
- Database.Database.Dereference: only for roots, as everywhere in the repository; dropping a single reference inside a trie would take away what its parent needs.
- Database.Database.Insert: joins the insertion of a node with all its references into one step, as the hasher and its leaf callback do them.
- Gas.Process: block rewards and other changes at the start and the end of a block are not part of it.
- Gas.ApplyTransaction: recovering the sender from the signature, and its failure, is not part of it.
- BlockChain.BlockChain.WriteBlockWithState: writes succeed; state commits, receipts, logs and events are not part of it.
- Gas.SetReceiptsData: sets the gas only, not the hashes, contract addresses and log positions of the receipts.
- Typed RLP (structs, tags, big integers, optional pointers, streams without an input limit) and error texts.
- Word size of weights, list lengths, block numbers and protocol offsets, which are unbounded here.
- Preimages, timings and collection statistics of the node cache, and its locks: steps are sequential.
- `unionIterator`, `SecureTrie`, parent hashes of an iterator and iteration over keys instead of paths: thin layers over what is modelled.
- `HeaderChain.SetHead`, fast sync of receipts, block validation and header verification.
- The transaction pool and its price list; account creation with an empty balance.
- Peer connections, handshakes and the message loop around the code table.
