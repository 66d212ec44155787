# Verification of monotone's in-memory algorithms

monotone is a distributed version-control tool. This project models the algorithms on which its history and its
merges rest, in the form the C++ code has (classes with fields that methods change, loops with invariants, recursion
over a shared table), and proves what they are for. Verify it with `dafny verify dfyconfig.toml` (Dafny 4.11).

## What is modelled

**Comparing files** (`lcs.cc`). `EditDistance` defines insert/delete distance, edit scripts and common subsequences
with no mention of the search; `EditGrid` gives the grid the O(NP) search walks on; `LcsSearch` holds `run` and
`compare` over the offset work vector and the shared cost vector; `LcsSplit` and `LcsScript` the divide and conquer;
`Lcs` the ordering of edits and the two entry points. Main result: for every pair of files, `edit_script` returns a
valid script of minimum size and `longest_common_subsequence` a longest common subsequence. That a split exists in
`mid_split` is proved, not assumed. The imperative search also refines a function of the two files (`ScriptFor`), so
equal files have equal scripts.

**The Merkle trie of netsync** (`merkle_tree.cc`, `netio.hh`). `MerkleNodes` and `MerkleTrie` say what the canonical
trie of a set of leaves is and what insertion does to it; `MerkleHash` says when a stored subtree hash is up to date;
`MerkleTree` is the table of shared node objects with the recursive insertion and the lazy re-hashing in place.
`NetIo`, `MerkleCodec` and `MerkleWire` go down to bits and bytes. Main result: over every run of insertions and
re-hashings, the table is the trie of the leaves as last written, and its root hash depends on these leaves only.

**The version store** (`database.cc`, `packet.cc`, `xdelta.cc`). `VersionTables` gives the two tables and what it
means for a version to be reconstructible; `VersionCache`, `VersionSearch` and `VersionStore` hold the cache, the
breadth-first search and the operations. `Xdelta`, `DeltaText`, `Piecewise` and `DeltaChains` (with `Adler32`) hold
computing, writing and reading deltas and the two ways of applying them, to strings and to versions made of chunks. The
store accepts a delta by the first and rebuilds versions by the second, as the code does. Main results: which deltas
fit, that is, go through on chunks; that computed deltas do, along whole chains, and copy whatever block can be found;
and that every run of packets and
re-basings whose received reverse deltas fit keeps the delta graph acyclic, the store then holding exactly the versions
it was given and could check, each reconstructible to its content.

**Path states and rearrangements** (`change_set.cc`, `file_io.cc`). `PathStates` and `DirectoryMaps` hold the trees
kept as tid -> (parent, type, name), the memoised checks, the directory index and the functions that extend both;
`Renumbering` the renumbering and the composed rearrangement; `FileSystem`, `TreeMoves` and `TreeMovesBack` the
two-pass move on a model of the file system. Main results: a composed rearrangement, replayed on the paths of the first
state, gives those of the second, and is the only one to tell what happened to every entry; and, on every disk, both
passes go through exactly if nothing unrelated is in the way, and then the whole rearrangement has been realised at
once, swaps and rename cycles included.

**Merging and diffs** (`diff_patch.cc`). `Extents` holds the extents of an edit script and the three-way merge,
`Normalizing` the two normalizing loops, `Merging` the merge of three files from end to end; `Unidiff` the hunk writer
and the walk that drives it. Main results: exactly when normalizing keeps the lines of a file, read off the extents
beforehand, and so exactly when a file merged with its unchanged ancestor, or with itself, comes back; a merge is made
line by line of the sides that changed a line; and the hunks written for two files turn the first into the second with
as few edits as possible and the right amount of context.

**The text of change sets** (`basic_io.hh`, `basic_io.cc`, `change_set.cc`). `BasicIo` and `ChangeSetIo` hold the
lexer, printer and parser. Main result: reading what was written gives back the change set.

**Small structures**: `Digraph` and `CycleDetector` (`cycle_detector.hh`), `Adler32` (`adler32.hh`), `Interner`
(`interner.hh`); `Wrappers` has the option type.

## Where the code does less than it seems

- Storing a descendant (`put_version`) closes a cycle in the delta graph exactly when the new text was itself built on
  the old version. `VersionTables.WithVersionValid` gives the exact condition, `BackAndForth` a run that meets it; the
  operations that packets and revisions lead to never do.
- A reverse delta that is received is checked by patching a string (`database.cc:1133-1151`, `xdelta.cc:432-442`),
  which cuts a copy past the end short (`xdelta.cc:381-384`) and ignores empty inserts. It is stored as it came, and
  later replayed on chunks, where the first fails the check at `xdelta.cc:600` and the second leads to the one at
  `xdelta.cc:559`. `VersionTables.OverlongRow` and `EmptyInsertRow` are stores with versions that can never be rebuilt
  again. The store stays consistent exactly if the delta fits its base (`VersionStore.Store.ReceiveReverseDelta`): all
  its copies are inside the base, and it inserts nothing empty, unless it makes the empty text
  (`DeltaChains.FitsExactly`). `VersionStore.Store.Run` asks it of its operations; the deltas the code computes always
  fit (`DeltaChains.Diff`).
- Re-basing files, unlike re-basing manifests, does not compare the two ids (`database.cc:1408-1410`). That does harm
  exactly when a stored empty file is re-based on itself (`VersionStore.Store.RebaseFile`), because only the empty file
  is reproduced by its own delta; `VersionTables.EmptyFileRow` shows the damage. The check at `change_set.cc:536-540`
  makes sure that the ids differ, unless checks are relaxed.
- The delta of a text to itself is empty, and applying the empty delta gives the empty text. So `patch(a, diff(a, b))`
  is `b` exactly when the texts differ or `b` is empty (`Xdelta.DeltaThenApply`, `DeltaChains.Diff`).
- The first loop of `normalize_extents` exchanges length and type of two extents but not their positions.
  `Normalizing.LosingRun` is a minimum script, and the one computed, whose extents lose a line in it: from 0 0 1 2 to
  0 0 0 1 1 2 0 by inserting the third, fifth and seventh line, after which 0 0 0 1 1 2 has become 0 0 0 0 1 2.
  `Normalizing.KeptExactly` gives the exact condition, on the extents before the loop; for minimum scripts the loop
  never fails its check and never loses a line if no extent goes up to a place another one has left (`MinimumOwn`,
  `MinimumKept`). So a file merged with its unchanged ancestor does not always come back (`Merging.UnchangedSide`,
  `LosingMerge`).
- The first hunk of a unified diff can open with up to twice the context asked for: the flush test of `advance_to` counts
  from the beginning of the file as from an edit. `Unidiff.LeadExactly` says exactly when.
- A number in a Merkle node survives the wire exactly when it is below 2^31, because seven-bit groups are shifted as an
  `int` (`NetIo.UlebRoundTrip`, `MerkleCodec.NodeRoundTrip`). Levels and slot counts are far below that.
- `total_num_leaves` of a Merkle node counts its occupied slots, not the leaves below it.
- A version put in the cache while it is there is counted once more, for good, and the cache then holds less than it
  could (`VersionCache.Cache.Put`). `get_version` never does so (`VersionStore.Store.GetVersion`).

## Model

| member | source | states |
|---|---|---|
| EditDistance.DistConcat | lcs.cc:188-240 | editing two pieces of a file separately is one way to edit them together: the distance of a concatenation is at most the sum |
| EditDistance.SplitExists | lcs.cc:242-260 | every row of the first file is crossed by an optimal edit at some column of the second |
| EditDistance.DistReverse | lcs.cc:212-219 | distance is the same read backwards, which is why the second scan may read both files in reverse |
| EditDistance.DistTrim | lcs.cc:341-350 | common heads and tails cost nothing |
| EditDistance.ScriptConcat | lcs.cc:224-239 | scripts of adjacent regions join into a script of the whole region |
| EditDistance.ScriptSwap | lcs.cc:354-361 | negating every entry turns a script from a to b into one from b to a (the polarity argument) |
| EditDistance.ScriptAtLeastDist | lcs.cc:448-463 | no valid edit script is shorter than the distance |
| EditDistance.ScriptEditSet | lcs.cc:263-319 | a script, taken as a bag of signed positions, leaves the same lines of both files, with distinct in-range entries |
| EditDistance.CommonSubsequenceBound | lcs.cc:465-489 | a common subsequence of length k forces the distance plus 2k to be at most the two lengths together |
| EditGrid.RunStart | lcs.cc:120-124 | the better of the two neighbouring diagonals is a point the current bound really reaches |
| EditGrid.RunEnd | lcs.cc:128-145 | a run that stops at its first mismatch stands at the furthest point its bound reaches, also outside the grid |
| EditGrid.SettledExact | lcs.cc:149-186 | after a full scan the cost recorded for a settled column is its exact distance |
| LcsSearch.SubsetView | lcs.cc:100-111 | a forward subset shows a slice, a backward one that slice reversed |
| LcsSearch.WorkVec.constructor | lcs.cc:53-60 | the work vector covers the diagonals lo..hi, all at -1 |
| LcsSearch.Slide | lcs.cc:126-144 | following matches ends at a mismatch, charges every column passed, and keeps every recorded cost an upper bound |
| LcsSearch.Run | lcs.cc:114-146 | one run leaves its diagonal at the furthest point within its bound, changes no other diagonal, only lowers costs, never below the true distance |
| LcsSearch.LowerSweep | lcs.cc:170-171 | the sweep from below brings every diagonal below delta to round p |
| LcsSearch.UpperSweep | lcs.cc:174-175 | the sweep from above brings every diagonal above delta to round p |
| LcsSearch.Round | lcs.cc:166-185 | after a round every diagonal is at its furthest point for p |
| LcsSearch.Compare | lcs.cc:148-186 | without full scan: exactly the minimum number of inserts plus deletes, capped by the limit; with it: sound costs that are exact on settled columns, and those of its functional specification |
| LcsSplit.GoodCutExact | lcs.cc:221-237 | costs never underestimate, so a cut whose costs add up to the optimum is exact on both halves: the two asserts on the recursive costs hold |
| LcsSplit.GoodCutExists | lcs.cc:242-260 | when the limit is the exact one, a cut with the optimal sum always exists |
| LcsSplit.MidSplit | lcs.cc:242-260 | returns such a cut without running off its vectors |
| LcsScript.ChooseCut | lcs.cc:209-226 | the two scans and the split give halves with exact costs that add up to the whole |
| LcsScript.DivideAndConquer | lcs.cc:188-240 | writes a minimum script for the region into its own stretch of the shared vector and returns exactly its length; the script is that of its functional specification |
| LcsScript.Trim | lcs.cc:341-350 | both ends skipped are equal in the two files |
| LcsScript.DiffToEt | lcs.cc:321-362 | the same for the trimmed and, if need be, swapped problem |
| LcsScript.InsertOnly | lcs.cc:387-423 | with limit 0 only insertions are written, and they are a minimum script |
| LcsScript.FillInsertions | lcs.cc:402-409 | the rest of b is inserted in order |
| LcsScript.ReplaceAll | lcs.cc:425-437 | when the limit is the whole of a, nothing is kept; deleting all and inserting all is then minimal |
| LcsScript.DiffToEz | lcs.cc:364-446 | all three cases write a minimum script and return its length |
| Lcs.DiffToEdits | lcs.cc:448-463 | for every pair of files with m <= n and a limit of at least m: the edits written are a script of the length of the distance, so the last assert holds |
| Lcs.SortedDeletions | lcs.cc:276-283 | the sorted edits are the deletions followed by the insertions |
| Lcs.LayOut | lcs.cc:285-318 | the alignment loop terminates and writes a permutation of the edits that is a script in file order |
| Lcs.OrderEdits | lcs.cc:263-319 | any edit set becomes a script in alignment order with the same edits |
| Lcs.EditsToLcs | lcs.cc:465-489 | copies out exactly the undeleted lines, (m + n - edits) / 2 of them |
| Lcs.DistanceIsMinimum | lcs.cc:448-463 | a script of the length of the distance is a minimum one among all scripts |
| Lcs.KeptIsLongest | lcs.cc:465-489 | what a minimum script keeps is a common subsequence, and none is longer |
| Lcs.EditScript | lcs.cc:493-526 | for all inputs the script returned is valid and minimal, whichever file is longer; which of the minimum ones it is follows from the two files alone |
| Lcs.LongestCommonSubsequence | lcs.cc:529-557 | for all inputs the result is a longest common subsequence |
| MerkleNodes.SetState | merkle_tree.cc:201-213 | setting one slot's two bits is read back and leaves the other fifteen alone |
| MerkleNodes.OccupiedAfterSet | merkle_tree.cc:465-471 | the node's counter counts its occupied slots |
| MerkleTrie.Insert | merkle_tree.cc:387-503 | no node is ever removed and the leaf's own node exists afterwards |
| MerkleTrie.InsertTrie | merkle_tree.cc:387-503 | inserting into the canonical trie of a set of leaves gives the canonical trie of the set with that leaf live or dead, and touches nothing outside the subtree |
| MerkleTrie.InsertAllTrie | merkle_tree.cc:387-503 | after any run the table is the trie of the last-written leaves |
| MerkleTrie.DeepEnough | merkle_tree.cc:394-396 | two leaves under one node differ below it: the depth assert never fires |
| MerkleTrie.TrieDetermined | merkle_tree.cc:387-503 | the leaves determine which nodes exist, their states, counts and slots (hashes apart) |
| MerkleTrie.OrderDoesNotMatter | merkle_tree.cc:387-503 | runs that leave every leaf with the same liveness build the same trie |
| MerkleHash.InsertBlanks | merkle_tree.cc:448-484 | an insertion blanks every subtree hash on the way to its leaf |
| MerkleHash.InsertClean | merkle_tree.cc:448-484 | so every hash still held stays up to date |
| MerkleHash.FullHashOfLeaves | merkle_tree.cc:357-384 | hashes computed afresh depend on the leaves only |
| MerkleHash.FillOneSlot | merkle_tree.cc:366-382 | re-hashing one subtree and storing its hash completes exactly one more slot |
| MerkleHash.FilledTrie | merkle_tree.cc:357-384 | re-hashing keeps the trie |
| MerkleHash.FilledFullHash | merkle_tree.cc:357-384 | and keeps what fresh hashes would be |
| MerkleHash.FilledClean | merkle_tree.cc:357-384 | after it every subtree slot holds the up-to-date hash of its subtree |
| MerkleTree.MerkleNode.SetSlotState | merkle_tree.cc:201-213 | only the one slot's state changes |
| MerkleTree.MerkleNode.SetRawSlot | merkle_tree.cc:132-137 | only the one slot's value changes |
| MerkleTree.MerkleTable.BlankSlot | merkle_tree.cc:477-483 | only the one subtree hash changes |
| MerkleTree.MerkleTable.FillSlot | merkle_tree.cc:465-471 | the leaf, its state and the count change together |
| MerkleTree.MerkleTable.FlipSlot | merkle_tree.cc:431-447 | only the liveness of the leaf changes, and only if it differs |
| MerkleTree.MerkleTable.AddNode | merkle_tree.cc:487-499 | a new node holds one leaf; all other nodes stay the same objects |
| MerkleTree.MerkleTable.PushDown | merkle_tree.cc:448-461 | the leaf that was there goes down first, then the new one |
| MerkleTree.MerkleTable.InsertAtNode | merkle_tree.cc:420-484 | each slot state leads to what the specification inserts |
| MerkleTree.MerkleTable.Insert | merkle_tree.cc:387-503 | the recursive insertion in place refines the specification, over shared node objects |
| MerkleTree.MerkleTable.RefreshSlot | merkle_tree.cc:366-382 | only a subtree slot with a blank hash is descended into |
| MerkleTree.MerkleTable.Recalculate | merkle_tree.cc:357-384 | the lazy re-hashing gives the same table and the same root hash as recomputing everything |
| MerkleTree.StepsKeep | merkle_tree.cc:357-503 | over every run of insertions and re-hashings the table stays the canonical trie with up-to-date hashes |
| MerkleTree.RootHashOfLeaves | merkle_tree.cc:357-503 | two runs that leave the same leaves give the same root hash, however insertions and re-hashings were mixed |
| MerkleCodec.PickSlotAndPrefixForValue | merkle_tree.cc:334-355 | the slot is the id's digit at the level, the prefix its digits before it |
| MerkleCodec.SlotNumber | merkle_tree.cc:346-351 | the bit loop computes that digit |
| MerkleCodec.ExtendedPrefix | merkle_tree.cc:147-157 | the bits of the prefix extended by the slot's digit |
| MerkleCodec.RawPrefixUnambiguous | merkle_tree.cc:405-408 | two prefixes of one level with the same raw bytes are the same: table keys are unambiguous |
| MerkleCodec.BytesDigitsRoundTrip | merkle_tree.cc:334-355 | the bytes of an id are read back from its digits: seeing an id as its forty digits loses nothing |
| MerkleCodec.WriteNode | merkle_tree.cc:235-268 | writes the hash and then the body of the wire form |
| MerkleCodec.WriteSlots | merkle_tree.cc:255-263 | writes the occupied slots only, in order |
| MerkleCodec.ReadNode | merkle_tree.cc:270-319 | reads exactly what the wire form allows, with its failures |
| MerkleCodec.NodeRoundTrip | merkle_tree.cc:235-319 | a complete node reads back equal, unless its counter does not fit an int, and then decoding fails |
| MerkleWire.HashMerkleNodeOk | merkle_tree.cc:325-332 | the first twenty bytes written are the hash of the body |
| MerkleWire.RehashedNodeComplete | merkle_tree.cc:235-268 | every node of a re-hashed trie is one that can be written |
| MerkleWire.RehashedTreeTravels | merkle_tree.cc:235-332 | and arrives on the other side as it was |
| NetIo.InsertUleb | netio.hh:145-168 | the loop writes the base-128 groups of the number, lowest first |
| NetIo.UlebRoundTrip | netio.hh:60-168 | a 64-bit number reads back if it is below 2^31 and fails to decode if not (the shift of an int) |
| NetIo.BlocksRoundTrip | merkle_tree.cc:247-299 | a bitset survives being packed into bytes and unpacked |
| NetIo.BytesRoundTrip | merkle_tree.cc:341-408 | whole bytes survive being unpacked and packed |
| VersionCache.Cache.MakeRoom | database.cc:865-883 | entries go, in any order, until the new one fits or none is left; nothing goes when it fits already |
| VersionCache.Cache.Put | database.cc:863-886 | what stays is unchanged; the byte count stays as much too high as it was, and a version put again while it is there adds its size for good |
| VersionTables.ReplaySound | database.cc:1062-1092 | any chain of deltas from a full text goes through on chunks and leads to the recorded content |
| VersionTables.ReplaysIfFits | xdelta.cc:375-442 | a delta that was accepted by patching a string leads to the announced id on chunks too exactly if it fits its base |
| VersionTables.OverlongRow | database.cc:1133-1151 | a delta that copies past the end of its base is accepted, and the version stored with it can never be rebuilt |
| VersionTables.EmptyInsertRow | database.cc:1133-1151 | a delta with an empty insert is accepted, and a version stored on top of it, with a fitting delta, can never be rebuilt |
| VersionTables.EmptyFileRow | database.cc:1404-1423 | the empty file re-based on itself: the put goes through and leaves a version that is a delta from itself |
| VersionTables.ChainExists | database.cc:999-1042 | on an acyclic store where every base is stored there is a way to a full text |
| VersionTables.ValidReconstructs | database.cc:934-1095 | in valid tables every stored id can be rebuilt, along every chain that leads to it |
| VersionTables.SameContent | database.cc:1090-1092 | a version rebuilt after any change of the tables is the version it was |
| VersionTables.WithoutRowsKeeps | database.cc:1399-1400 | dropping a version's rows leaves everything sound and acyclic, with at most that one base missing |
| VersionTables.WithVersionValid | database.cc:1106-1131 | storing a descendant keeps the tables valid if and only if its text was not itself built on the old version |
| VersionTables.BackAndForth | database.cc:1106-1131 | a concrete run that shows why: going back to the old text closes a cycle |
| VersionTables.WithFullValid | database.cc:814-832 | a new full text keeps the tables valid |
| VersionTables.WithDeltaValid | database.cc:833-848 | a new delta onto a stored version keeps them valid |
| VersionTables.VersionPutReplaces | database.cc:1106-1131 | row by row, what storing a descendant leaves: the new text in full, the old version as a delta that leads back to it, nothing else changed |
| VersionSearch.Bases | database.cc:1018-1022 | the recorded bases, each once, in no fixed order |
| VersionSearch.ExtendPathIfNotCycle | database.cc:912-932 | fault on a cycle; nothing at a node already seen; else a longer live path |
| VersionSearch.ExtendAll | database.cc:1024-1037 | every fork gets a copy of the path, the path itself takes the first row |
| VersionSearch.NoWayBack | database.cc:919-924 | on an acyclic store no path runs back into itself: the cycle fault never fires |
| VersionSearch.Round | database.cc:1000-1042 | one round selects a path to a full or cached version or makes every live path one longer |
| VersionSearch.RoundCovers | database.cc:982-985 | paths entering seen nodes may be killed: the tips that remain still cover every version at that distance |
| VersionSearch.StillLive | database.cc:1000-1042 | until a root is found some path is live, so the search terminates with one |
| VersionSearch.SelectPath | database.cc:987-1046 | the selected path is a shortest delta path to a full or cached version, and only its last node is one |
| VersionStore.Store.ReplayPath | database.cc:1049-1092 | applying the deltas on chunks back along the path fails no check and gives the text whose id was asked for; the versions cached on the way are right, the last one of them is there, and none is counted twice |
| VersionStore.Store.GetVersion | database.cc:934-1095 | in a sound store exactly the stored or cached versions are returned, each with its recorded content; no check on the way fails, and no version is put in the cache that is there |
| VersionStore.Store.PutRow | database.cc:814-832 | accepted exactly if the text has this id and there is no row for it |
| VersionStore.Store.PutDelta | database.cc:833-848 | accepted exactly if both ids are non-empty and there is no such row |
| VersionStore.Store.PutVersion | database.cc:1106-1131 | accepted under an exact condition; the new text then replaces the old one, which is from now on built from it; valid afterwards if and only if no cycle was closed |
| VersionStore.Store.PutReverseVersion | database.cc:1133-1151 | one delta row is added exactly if it produces the announced id |
| VersionStore.Store.ReceiveFull | packet.cc:645-659 | one full row is added exactly if the id is not stored and the data has it |
| VersionStore.Store.ReceiveDelta | packet.cc:669-715 | taken exactly if the new id is not stored, the old one is, and the delta produces it; then the new version is held in full and the old one as a delta that leads back, all other rows staying, or, to be written in full, one full text is added |
| VersionStore.Store.ReceiveReverseDelta | packet.cc:717-759 | the delta is recorded exactly if the older version is missing, the newer one stored and patching gives the announced id; the store stays consistent exactly if the delta also fits its base on chunks |
| VersionStore.Store.Redeltify | database.cc:1393-1401 | dropping a child's rows and putting it again over its parent: it goes through exactly if the two differ or the text is empty, and keeps the store consistent exactly if they differ or the text is not empty |
| VersionStore.Store.RebaseManifest | database.cc:1387-1402 | with the comparison of ids the re-basing always keeps the store consistent; row by row, the child is then held in full and the parent as a delta from it |
| VersionStore.Store.RebaseFile | database.cc:1404-1423 | without it, exactly unless a stored empty file is re-based on itself |
| VersionStore.Store.Run | database.cc:1097-1427 | every run of packets and re-basings in which received reverse deltas fit their base and the empty file is not re-based on itself keeps the delta graph acyclic, changes the rows as its operations say, one after the other, and holds exactly the versions announced and backed up, each of them reconstructible |
| PathStates.TreeIffAcyclic | change_set.cc:585-607 | every item reaches the root if and only if parents are known directories and there is no parent cycle |
| PathStates.PathsDiffer | change_set.cc:735-750 | with unique entries, different live items have different paths |
| PathStates.GetFullPath | change_set.cc:735-750 | the loop up to the root terminates on every grounded item and collects its path |
| PathStates.CheckDepth | change_set.cc:555-583 | accepts only what reaches the root and all that does so within the limit; the memo table stays truthful |
| PathStates.ConfirmProperTree | change_set.cc:588-607 | an accepted state is a tree; every tree within the depth limit is accepted |
| PathStates.CollectEntries | change_set.cc:612-624 | lists the (parent, name) pairs of the named items; fails on a null item not below the root |
| PathStates.AdjacentDiffer | change_set.cc:630-643 | in a sorted list comparing neighbours finds every duplicate |
| PathStates.ConfirmUniqueEntries | change_set.cc:609-644 | accepts exactly the states with unique names per directory and null items below the root |
| DirectoryMaps.SanityCheck | change_set.cc:646-652 | both checks together |
| DirectoryMaps.BuildDirectoryMap | change_set.cc:1119-1142 | the index of an accepted state lists exactly its named entries |
| DirectoryMaps.LookupPath | change_set.cc:866-888 | the loop computes the lookup step by step |
| DirectoryMaps.LookupFullPath | change_set.cc:866-888 | looking up a live entry's full path in the index returns that entry |
| DirectoryMaps.LookupSound | change_set.cc:866-888 | whatever a lookup finds is live and has that path |
| DirectoryMaps.LookupIffPath | change_set.cc:866-888 | paths and live entries correspond one to one |
| DirectoryMaps.ExtendsPath | change_set.cc:900-1014 | adding items changes no existing path |
| DirectoryMaps.TidSource.Next | change_set.cc:50-56 | fresh numbers up to the reserved last one |
| DirectoryMaps.Half.EnsureEntry | change_set.cc:900-940 | found or made, keeping tree, uniqueness and index in agreement; fails exactly on a bad name, an unknown directory, an entry of the other kind or exhausted numbers |
| DirectoryMaps.Half.EnsureDirInMap | change_set.cc:942-956 | the directory at the path, made with what was missing; with numbers to spare it succeeds exactly if nothing of the wrong kind is on the way |
| DirectoryMaps.Half.EnsureFileInMap | change_set.cc:969-984 | the same for a file at the path |
| DirectoryMaps.StillReceivable | change_set.cc:992-1013 | making one missing entry does not stand in the way of the others |
| DirectoryMaps.Half.EnsureEntriesExist | change_set.cc:986-1014 | every entry of the other half gets a counterpart at its path; no existing path changes; it succeeds exactly if each way is open, given numbers to spare |
| Renumbering.RenumberPath | change_set.cc:1017-1041 | an injective renumbering that leaves the root alone preserves every full path |
| Renumbering.RenumberSane | change_set.cc:1017-1041 | and keeps a tree with unique entries one |
| Renumbering.RenumberAll | change_set.cc:1022-1039 | renumbers every item or finds two with one number |
| Renumbering.ApplyStateRenumbering | change_set.cc:1017-1041 | the same with the checks before and after |
| Renumbering.FindChange | change_set.cc:786-860 | what happened to one entry: kept, added, deleted, renamed, or a failed assert |
| Renumbering.ComposeRearrangement | change_set.cc:780-862 | fails exactly on an entry named below a null one and on a new directory; otherwise it records each rename, deletion and addition under the full paths, in the set or map of its type, nothing for an entry that kept its path, and nothing else; replayed on the live paths of the first state it gives those of the second |
| Renumbering.ComposedDescribes | change_set.cc:780-862 | a composed rearrangement tells, in terms of paths and types only, what happened to every entry, and leads from the first state to the second |
| Renumbering.TellingLeadsOver | change_set.cc:780-862 | any rearrangement that tells of each entry, and of nothing else, leads from the first state to the second |
| Renumbering.DescribesOnce | change_set.cc:780-862 | and there is only one that does |
| Renumbering.ComposesOnce | change_set.cc:780-862 | an analysis has at most one rearrangement |
| Renumbering.RenumberComposes | change_set.cc:780-862 | the rearrangement does not depend on the numbers of the entries |
| Renumbering.FreshNumbers | change_set.cc:1910-1914 | as many fresh numbers as entries; fails exactly when they run out |
| Renumbering.RebuildAnalysis | change_set.cc:1905-1918 | the rebuilt analysis is sane, freshly numbered, and composes to the very same rearrangement |
| FileSystem.RenameKeeps | file_io.cc:227-251 | renaming to a free name in a directory outside the moved subtree keeps the file system a tree |
| FileSystem.Disk.PathStatus | file_io.cc:88-104 | tells nothing, file and directory apart exactly |
| FileSystem.Disk.Move | file_io.cc:227-251 | goes through exactly if the source is there and of its kind and the target is free in an existing directory; everything else stays where it was |
| FileSystem.Disk.MakeDirFor | file_io.cc:196-207 | creates the missing directories above a path; fails exactly if a file is in the way |
| TreeMoves.ParkEntry | change_set.cc:2437-2458 | one entry goes to its temporary name, if the disk has something of its kind at its path |
| TreeMoves.ParkBranch | change_set.cc:2424-2458 | children first, then the entry itself |
| TreeMoves.MoveFilesToTmpBottomUp | change_set.cc:2411-2461 | after the first pass every live entry below t that the disk has is in the temporary directory and nothing else has moved |
| TreeMovesBack.OtherEnds | change_set.cc:2485-2508 | whatever belongs to no entry and is found on the way to an entry is where the static description says it ends up |
| TreeMovesBack.EndsThere | change_set.cc:2485-2508 | and what the description says ends up on the way is found there when the entry is to be placed |
| TreeMovesBack.PlaceEntry | change_set.cc:2485-2508 | one entry goes from its temporary name to its new path, missing directories being made; this fails exactly if something unrelated ends up there, or as a file where a directory above is to be |
| TreeMovesBack.PlaceBranch | change_set.cc:2476-2512 | the entry first, then its children |
| TreeMovesBack.MoveFilesFromTmpTopDown | change_set.cc:2463-2515 | after the second pass everything below t that waited is at its new path |
| TreeMovesBack.PlacedRealizes | change_set.cc:2517-2539 | each entry live in both states ends at its new path, deleted ones stay in the temporary directory, unmentioned files follow their directory, nothing is lost or overwritten |
| TreeMovesBack.ApplyAnalysis | change_set.cc:2517-2539 | both passes together realise the whole rearrangement at once, swaps and rename cycles included; on every disk they go through exactly if nothing unrelated ends up at a target, and no unrelated file where a directory above a target is to be |
| Extents.FillPreserved | diff_patch.cc:110-115 | lines a script leaves alone get extents of their own |
| Extents.InsertLine | diff_patch.cc:139-155 | an inserted line goes to the prefix, the suffix or the last extent without breaking the correspondence |
| Extents.CalculateExtents | diff_patch.cc:88-161 | one extent per ancestor line; prefix, extents and suffix together spell the other file, with every extent at the place of its lines and no more edits accounted for than the script has |
| Normalizing.ExchangeExact | diff_patch.cc:172-217 | an exchange of adjoining extents keeps the lines if and only if the changed extent began with its own ancestor line |
| Normalizing.GatherUp | diff_patch.cc:167-220 | the first normalizing loop computes its specification, failed checks included |
| Normalizing.GatheredHighest | diff_patch.cc:167-220 | after the first loop no changed extent could go up any further |
| Normalizing.KeptExactly | diff_patch.cc:163-220 | for all extents in place: the first loop goes through and keeps the lines if and only if every extent that moves begins with its own ancestor line and the lines at each index agree with those as much further on as the index is pushed down, both read off the list before the loop |
| Normalizing.ApartKept | diff_patch.cc:163-220 | extents that do not go up to a place another one has left keep the lines if and only if those that move begin with their own line |
| Normalizing.MinimumOwn | diff_patch.cc:163-220 | the extents of a minimum script that move do begin with their own line, so the check inside the loop never fails |
| Normalizing.MinimumKept | diff_patch.cc:163-220 | for a minimum script the loop keeps the lines exactly if they agree, and always if the extents stay apart |
| Normalizing.LosingRun | diff_patch.cc:163-220 | a minimum script whose extents, as calculate_extents gives them, lose a line in the first loop |
| Normalizing.ShiftPieces | diff_patch.cc:222-256 | the second normalizing loop keeps the lines, leaves no changed extent of several lines directly behind another one, and marks as preserved every extent it leaves with its ancestor line alone |
| Normalizing.NormalizeExtents | diff_patch.cc:163-258 | both loops: on extents in place they keep the lines under exactly the condition of the first one, and the result is well typed whenever the moved extents begin with their own line |
| Extents.MergeOne | diff_patch.cc:291-332 | the branches compute the three-way rule for one ancestor line |
| Extents.MergeExtents | diff_patch.cc:260-339 | the loop computes it for all lines, with conflict as failure |
| Extents.MergeSymmetric | diff_patch.cc:260-339 | result and conflict do not depend on which side is called left |
| Extents.ConflictExact | diff_patch.cc:292-332 | a conflict is reported exactly when both sides changed a line, and not to the same lines |
| Extents.MergedLineByLine | diff_patch.cc:260-339 | exactly the lists made of one piece for every ancestor line in order are merges: the line itself if neither side changed it, else the lines of every side that did |
| Extents.MergeAlike | diff_patch.cc:292-306 | two sides changed alike merge to what they both are |
| Extents.MergeUnchanged | diff_patch.cc:317-324 | merging with an unchanged side gives the changed side |
| Extents.MergeWithAncestor | diff_patch.cc:402-420 | with prefix and suffix, merging the extents of a file with its unchanged ancestor gives back the file |
| Extents.SelfScript | diff_patch.cc:342-420 | the minimum script between equal files is empty, so the unchanged side really has preserved lines only |
| Merging.PrepareSide | diff_patch.cc:377-400 | for any two files: minimum script, extents and normalizing, none of which fails a check |
| Merging.SidesSwap | diff_patch.cc:342-427 | the whole merge does not depend on which side is called left |
| Merging.ConflictsWhen | diff_patch.cc:402-420 | it conflicts exactly if both sides have lines before everything, or behind everything, or differ at a line both changed |
| Merging.UnchangedSide | diff_patch.cc:342-427 | when one side is the ancestor there is no conflict, and the other side comes back exactly if the exchanges of the first normalizing loop agree with its lines; always if its extents stay apart |
| Merging.SidesAlike | diff_patch.cc:342-427 | two sides changed alike conflict exactly if they have lines before or behind everything; else they come back exactly under that condition |
| Merging.LosingComputed | lcs.cc:493-526 | that script is what edit_script computes for the two files |
| Merging.LosingMerge | diff_patch.cc:342-427 | a file that does not come back from a merge with its unchanged ancestor, with the script that is computed for it |
| Merging.MergeViaEditScripts | diff_patch.cc:342-449 | for any three files the code computes that merge, fails nothing but by conflict; an unchanged side gives back the other exactly under that condition, and so do equal sides |
| Unidiff.UnidiffHunkWriter.InsertAt | diff_patch.cc:838-842 | one line of the second file joins the hunk |
| Unidiff.UnidiffHunkWriter.DeleteAt | diff_patch.cc:844-848 | one line of the first file joins the hunk |
| Unidiff.UnidiffHunkWriter.TrailingContext | diff_patch.cc:854-861 | exactly ctx lines of context, or as many as the file still has, true in both files |
| Unidiff.UnidiffHunkWriter.WriteHunk | diff_patch.cc:863-883 | the hunk goes out and what is written now describes both files up to its end |
| Unidiff.UnidiffHunkWriter.BeginHunk | diff_patch.cc:886-892 | the skew gives the right start in the second file |
| Unidiff.UnidiffHunkWriter.FlushHunk | diff_patch.cc:850-893 | both, and never into the hunk to come |
| Unidiff.UnidiffHunkWriter.LeadingContext | diff_patch.cc:901-912 | exactly ctx lines before the change, true in both files |
| Unidiff.UnidiffHunkWriter.AdvanceTo | diff_patch.cc:895-924 | whichever branch is taken, the hunk ends up right behind the common lines, with context an edit may follow; no edit is lost or added |
| Unidiff.SubsequenceEmbeds | diff_patch.cc:778-792 | any common subsequence can be followed by always taking the first match |
| Unidiff.WalkHunkConsumer | diff_patch.cc:761-807 | for any common subsequence the hunks are ordered and apart, fit the first file at their positions, have the context they should, applied to it give the second file, and remove and add exactly the lines outside the subsequence |
| Unidiff.MakeUnidiff | diff_patch.cc:1092-1131 | for any two files: the hunks turn the first into the second, leave alone as much as a longest common subsequence, have ctx lines of context behind the last edit or what the file has, at most twice as many between two edits, and never touch; with context every hunk header tells the true positions in both files |
| Unidiff.LeadExactly | diff_patch.cc:895-924 | how many lines open a hunk: ctx, except that the first hunk has all lines before its first edit when these are no more than twice as many |
| Unidiff.ShapeIs | diff_patch.cc:895-924 | hunks built that way have the right amount of context before their first edit and between any two edits |
| BasicIo.InputSource.Eat | basic_io.hh:44-53 | takes one character, and nothing at the end; line and column become those of the next character |
| BasicIo.InputSource.Advance | basic_io.hh:54-54 | the lookahead is again the next character |
| BasicIo.Tokenizer.StringToken | basic_io.hh:82-109 | reads the string token the text has, or fails as the grammar does |
| BasicIo.Tokenizer.HexToken | basic_io.hh:111-129 | the same for a bracketed hexadecimal token |
| BasicIo.Tokenizer.SymbolToken | basic_io.hh:130-139 | the same for a symbol |
| BasicIo.Tokenizer.GetToken | basic_io.hh:64-142 | the loop with one character of lookahead returns exactly the next token of the text, and keeps line and column those of the place reached |
| BasicIo.LexEscaped | basic_io.cc:37-59 | an escaped string is read back as one string token with the original value |
| BasicIo.LexBracketed | basic_io.cc:64-75 | a bracketed hexadecimal value is read back as one token |
| BasicIo.LexLine | basic_io.cc:124-133 | a padded line is read back as its key followed by its value |
| BasicIo.Escape | basic_io.cc:37-59 | the loop escapes quotes and backslashes only |
| BasicIo.Stanza.PushHexPair | basic_io.cc:64-75 | refuses exactly bad keys and non-hexadecimal values; keeps the indent the longest key |
| BasicIo.Stanza.PushStrPair | basic_io.cc:77-85 | refuses exactly bad keys; keeps the indent the longest key |
| BasicIo.Printer.PrintStanza | basic_io.cc:117-134 | appends the padded lines, set apart by an empty line from what came before |
| ChangeSetIo.PrintStatement | change_set.cc:2826-2867 | one stanza; fails exactly on an id that is not hexadecimal |
| ChangeSetIo.PrintChangeSet | change_set.cc:2822-2925 | prints every statement of the change set once, kind by kind in the order of the source and by path within a kind; fails exactly on a non-hexadecimal id |
| ChangeSetIo.OrderedOnce | change_set.cc:2822-2925 | there is one such order, so the text is determined by the change set |
| ChangeSetIo.ApplyEnumeration | change_set.cc:2822-2917 | entering all statements of a change set in any order rebuilds it |
| ChangeSetIo.Parser.Str | basic_io.hh:203-207 | takes one string token or fails |
| ChangeSetIo.Parser.Hex | basic_io.hh:205-209 | takes one hexadecimal token or fails |
| ChangeSetIo.Parser.ESym | basic_io.hh:215-226 | takes the one symbol wanted or fails |
| ChangeSetIo.Parser.ParseMoveStatement | change_set.cc:2779-2814 | reads one statement of the rearrangement as the grammar does |
| ChangeSetIo.Parser.ParsePathRearrangement | change_set.cc:2772-2819 | reads statements as long as they are of the rearrangement |
| ChangeSetIo.Parser.ParsePatchStatement | change_set.cc:2888-2897 | reads one patch statement |
| ChangeSetIo.Parser.ParsePatches | change_set.cc:2886-2899 | reads patches as long as there are any |
| ChangeSetIo.ReadChangeSet | change_set.cc:2942-2953 | the reader refines the grammar on every text, failures included |
| ChangeSetIo.RoundTrip | change_set.cc:2772-2925 | parsing what was printed gives back the change set, for every change set with hexadecimal ids |
| ChangeSetIo.WriteAndRead | change_set.cc:2942-2971 | the writing and the reading code together do so, by way of that text |
| CycleDetector.Detector.PutEdge | cycle_detector.hh:30-41 | adds the edge once |
| CycleDetector.Detector.Scan | cycle_detector.hh:64-80 | one turn of the inner loop keeps what has been searched and what is pending |
| CycleDetector.Detector.Search | cycle_detector.hh:55-84 | the explicit-stack search terminates and decides reachability |
| CycleDetector.Detector.EdgeMakesCycle | cycle_detector.hh:44-85 | true exactly if src is dst or reachable from it |
| Digraph.AddEdge | cycle_detector.hh:44-85 | one more edge keeps a graph acyclic exactly if its end does not reach its start |
| Digraph.AcyclicRanked | database.cc:969-985 | a finite acyclic graph can be ranked, so searches along its edges terminate |
| CycleDetector.Detector.StoreEdge | rcs_import.cc:1407-1429 | an edge is stored exactly if the graph stays acyclic |
| CycleDetector.Detector.StoreEdges | rcs_import.cc:1407-1429 | over any run it stays acyclic, and only edges that would close a cycle are missing |
| Adler32.InExact | adler32.hh:27-34 | in extends the window of the checksum by one byte, masks and wrap-around included |
| Adler32.OutExact | adler32.hh:36-43 | out removes its first byte exactly |
| Adler32.Slide | adler32.hh:27-43 | out and in together give the checksum computed afresh over the shifted window |
| Adler32.Rolling.constructor | adler32.hh:49-54 | the loop computes the checksum of the bytes |
| Adler32.Rolling.In | adler32.hh:27-34 | a byte more in the words: from the checksum of any window to that of the window with the byte behind it |
| Adler32.Rolling.Out | adler32.hh:36-43 | a byte less: from the checksum of any window that begins with the byte to that of the rest |
| Adler32.Rolling.Sum | adler32.hh:22-25 | the two halves are packed without loss |
| Interner.Table.Lookup | interner.hh:38-43 | returns the string a number was given for |
| Interner.Table.Intern | interner.hh:49-60 | old strings keep their numbers, a new one gets the next |
| Interner.Table.InternLines | diff_patch.cc:1105-1113 | a file as numbers, each standing for its line |
| Interner.Table.InternBoth | diff_patch.cc:1103-1113 | lines of two files are equal exactly when their numbers are |
| Xdelta.InitMatchTable | xdelta.cc:69-83 | every block of a is in the table under its checksum, unless an earlier one has the same; nothing else is |
| Xdelta.ExtendForwards | xdelta.cc:118-127 | extends the match as far as the texts agree |
| Xdelta.ExtendBackwards | xdelta.cc:129-153 | extends it back as far as they agree within the last insert, which shrinks by as much |
| Xdelta.FindMatch | xdelta.cc:86-157 | a match is found exactly if the block under the checksum is really there; it is as long as it can be at both ends, and replacing inserts by it still produces the same text and inserts nothing new |
| Xdelta.NothingFound | xdelta.cc:86-113 | where the table has nothing that is there, b has no block of a that is the first with its checksum |
| Xdelta.Roll | xdelta.cc:219-228 | the rolling checksum stays that of its window up to the end of the text |
| Xdelta.ComputeDeltaInsns | xdelta.cc:176-231 | the instructions produce b from a; nothing is inserted that begins with a block the search could have found, and every copy is as long as it can be |
| Xdelta.ComputeDelta | xdelta.cc:317-357 | the same with the special cases; equal texts have the empty delta, short ones a single insert |
| Xdelta.DeltaThenApply | xdelta.cc:317-442 | applying the delta to a gives b exactly if the texts differ or b is empty |
| DeltaText.DeltaRoundTrip | xdelta.cc:55-67 | a written delta reads back as its instructions, whatever the payloads contain |
| DeltaText.WriteDelta | xdelta.cc:350-356 | writes the instructions one after the other |
| DeltaText.ParseInsert | xdelta.cc:399-417 | reads one insert, or fails where the stream checks fail |
| DeltaText.ParseCopy | xdelta.cc:418-427 | the same for a copy |
| Piecewise.FoundBehind | xdelta.cc:548-562 | the binary search finds the first chunk that ends behind the position; it fails no check if no chunk is empty |
| Piecewise.LowerBound | xdelta.cc:594-597 | the search of the code is that search, with the check that fails on an empty chunk |
| Piecewise.CopyChunksText | xdelta.cc:564-639 | whatever is copied chunk by chunk is the range of the source text; without empty chunks it goes through exactly as far as the range is inside |
| Piecewise.ApplyCopy | xdelta.cc:564-639 | the loop copies chunk by chunk, failed checks included |
| Piecewise.PiecewiseApplicator.Begin | xdelta.cc:657-664 | the version is the base text, one chunk |
| Piecewise.PiecewiseApplicator.CopyRange | xdelta.cc:678-681 | one copy on chunks |
| Piecewise.PiecewiseApplicator.InsertText | xdelta.cc:683-686 | one insert, of an empty text too, appends one chunk |
| Piecewise.PiecewiseApplicator.Next | xdelta.cc:666-670 | the text under construction becomes the current one |
| Piecewise.PiecewiseApplicator.Finish | xdelta.cc:672-676 | gives the text of the current version |
| Piecewise.DidAllText | xdelta.cc:564-686 | instructions that go through on chunks do to the text what they do to strings |
| Piecewise.DidAllGoesThrough | xdelta.cc:564-686 | and they go through if all copies are inside and there is no empty chunk to copy from |
| DeltaChains.ApplySimple | xdelta.cc:432-442 | patching a string with any delta text, failures and copies cut short included |
| DeltaChains.ApplyDelta | xdelta.cc:391-430 | applying a delta text to the applicator on chunks while reading it is applying its instructions |
| DeltaChains.FitsExactly | xdelta.cc:548-686 | a delta goes through from every clean version of its base and leaves a clean one if and only if it fits: every copy inside the base, nothing empty inserted |
| DeltaChains.BothAgree | xdelta.cc:359-442 | where patching and applying with all copies inside both go through they give the same text |
| DeltaChains.OverlongCopy | xdelta.cc:381-384 | a copy past the end is cut short on strings and fails on chunks, whatever chunks the base consists of |
| DeltaChains.EmptyInsert | xdelta.cc:542-562 | an empty insert makes the replay fail at the next delta, although that one fits and strings can be patched with both |
| DeltaChains.Replay | database.cc:1062-1088 | replaying a whole chain of deltas computes its specification on chunks, failures included |
| DeltaChains.ReplayedAfter | database.cc:1062-1088 | a replay that goes through gives the text that applying the deltas one by one gives |
| DeltaChains.SmoothReplays | database.cc:1062-1088 | along a chain of fitting deltas the replay goes through |
| DeltaChains.Diff | xdelta.cc:317-357 | the delta as text fits a and leads from a to b exactly if the texts differ or b is empty, the law the version store relies on; what it reads back as inserts no findable block |
| DeltaChains.DiffsReplay | database.cc:1106-1131 | the deltas of neighbouring texts are a smooth chain and replay to the last text |

## Left out

Comparing files:
- Machine integers: `long` and `size_t` are unbounded here, and the limit passed to the entry points is at least the
  shorter length, as every caller shown passes it.
- `std::sort` is a function whose result is ascending and a permutation.

The Merkle trie:
- SHA-1 is any function from bytes to twenty bytes; ids in the trie are their forty digits, which the codec justifies.
- NetIo.UlebRoundTrip: from 2^31 on the code shifts an `int` beyond its width, which has no defined outcome; the model
  lets it be a failure to decode.
- MerkleCodec.NodeRoundTrip: the same for the counter of a node.
- Re-hashing a table without a root node, which the code asserts against, is not asked for.
- Item types outside the enumeration in a node to be written.

The version store:
- SQL, compression, base64 and transactions: a table is a map, and a failed operation leaves it as it was.
- The computing of deltas is any function with the law that `DeltaChains.Diff` proves for texts below four gigabytes;
  ids are any injective function of texts. Applying deltas is the code's, in both ways.
- The entry thrown out of the cache at random is any entry.
- Packets delayed until their prerequisite arrives, and the specialised delta between two manifests.
- VersionStore.Store.Run: its operations are those that do no harm, by the two exact conditions shown above.
- Xdelta.FindMatch: comparing a block against the end of b may read past it; what is found there is a parameter.
- Xdelta.ComputeDelta: the 32-bit positions of copies, so texts of four gigabytes and more are not claimed.
- DeltaText.ParseNumber: signs and overflow in the numbers of a delta.

Path states:
- `analyze_rearrangement`, merging and inverting change sets: for arbitrary input they are only checked by asserts at
  run time, and the repository itself says that its directory semantics are incomplete.
- TreeMovesBack.ApplyAnalysis: starts from the two states, not from the rearrangement text, and says when it goes
  through for states within the depth limit of the sanity check.
- The file system is a tree of numbered nodes; links, permissions and failing system calls are not modelled. The names
  in the temporary directory are any injective function of tids, and the directory is empty at the start.
- Splitting a path into components and interning them.
- DirectoryMaps.Half.EnsureEntriesExist: success is claimed when the depth is within the limit and 300 numbers per
  entry are left, which is more than it uses.

Merging and diffs:
- The text of hunk headers; hunks are values with positions, lengths and lines.
- `cxtdiff_hunk_writer`, whose flush test ignores pending deletions.

The text of change sets:
- `check_sane` and the checks of a path are parameters that accept or refuse; `push_str_multi` and the length checks of
  hexadecimal ids are not modelled.

Everything else: annotate, globs and selectors, commands, options, Lua hooks, keys and certificates, netsync's
protocol, work space bookkeeping.
