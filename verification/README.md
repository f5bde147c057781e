# A model of the node's trie, codecs, gas machine and state transitions

The repository is an early Ethereum node in Go. This project models its core and proves what the core is for:

- **The Merkle-Patricia trie.** `PatriciaTree` and `TrieTheorems` have the tree that is meant: insertion, deletion and
  lookup behind the references, canonical on every run and one tree per content. `CodedTree` and `CodedRight` have the tree
  as the code treats it, with the Go kind of every slot and with hashes that became Go strings. Equal nodes are one node of
  the cache, and a put replaces it wherever it is referred to (`ethutil/trie.go:52`): `SharedNodes` says what the
  operations leave with that, `SharedAnswers` exactly when a deletion then hides other keys, `Reading` what is read back,
  and `CodedRuns` exactly when whole runs keep answering and keep to the tree that is meant. `GoValues` and `NodeRefs`
  write nodes down and compare roots. `TrieViews`, `TrieCache`, `TrieSteps` and `TrieObject` are the objects, a write-back
  cache over a database and a trie over the cache, whose methods run on Go values and are proved to leave exactly the tree
  of `SharedNodes`; `TrieRuns` and `RunNodes` are about whole runs of the object. `Iteration` is the iterator, and
  `TrieLoss`, `SharedLoss` and `UndoLoss` hold the runs on which the trie fails what it is for.
- **Codecs** (`Bytes`, `HexPrefix`, `Slices`, `Rlp`, `RlpForms`, `Wire`, `Mnemonic`): hex-prefix paths, RLP, framing,
  mnemonics. `RlpForms` is the grammar of RLP, without either program; `Vectors` has bytes of single paths, items, nodes,
  accounts and packets.
- **The gas machine** (`GasTraces`, `GasMachine`, `GasLaws`): the loop of the virtual machine with nested CALL and
  CREATE frames, on integers of either sign. Every frame writes down its run: each step with its position, opcode,
  price, stack and child. `WellRun` says what a script may do, `Cost` what it pays; a ghost ledger lists the live frames
  and what each holds, and balances after any number of steps of the whole call tree. `GasLaws` says from one line to
  the next what each opcode does, and has a script with all its runs and one that pays itself.
- **State transitions** (`States`, `StateRuns`, `Transactions`, `Balances`, `Chain`): nested states and what any run of
  operations leaves of their lookups, snapshots, lists of transactions and every account's balance behind them, and the
  exchange by which a peer catches up.

Conventions. Go's `string` and `[]byte` are one type of byte strings, except in the trie from `GoValues` on, which keeps
them apart. A panic that Go recovers from is `None`, or a constructor named `Panic`. `:= *` marks a choice that depends on
something the model does not hold. The hash is a function that is not interpreted; `NoCollisions` states what is assumed
of it for a finite set of nodes: 32 bytes wide, no collision among them, and all of them are read back, and written again,
as they were. For a run of the trie object that set is larger than what the run stores: `Closed` asks for every node that
its updates, in any order and number, could put, whatever was read back on the way; there are finitely many
(`ClosedExists`). A ghost argument of a recursive trie method is the tree behind the reference it gets, or the view of
cache and database in which it is seen.

Where the code departs from what its comments or callers intend, the model follows the code:

- `ethutil/trie.go:410` takes `.Str()` of a grandchild. An inline list becomes "" and is lost. A hash becomes a Go string,
  which GetState and the tests at lines 277 and 349 take for nothing, so that all keys below answer ""; but it is written
  out as the hash it was, so that a trie opened again on the root has them, unless an insertion took the place before. On a
  tree that hides no key a deletion keeps every other key if and only if it does not get there with a node that bears a
  key, inline or stored (`DeletedExact`), and the bytes it writes are right only if it does not get there with an inline
  one (`DeletionRight`). A run answers with its content after every event if and only if no deletion gets there with such a
  node (`RunAnswersExactly`). `HistoryMatters` gives four updates that lose two keys for good. Values of 32 bytes or more,
  as account records have, make every node a stored one: then nothing is lost but what an insertion overwrites
  (`LongValuesReturn`), yet keys are hidden, and may be lost later (`HistoryHides`, `LostForGood`).
- `ethutil/trie.go:394` takes an empty slot that was read back for an occupied one, so that a branch that was read back
  keeps its 17 slots (`CountExact`, `ReloadedNeverCollapses`). What a deletion leaves is canonical, and the tree for its
  content, if and only if no branch on the key's path is left with fewer than two occupied slots and yet several counted
  (`Stale`), and no inline node is met at line 410 (`DeletionRight`; for whole runs `RunRightExactly`; for roots
  `RootsCompareContents`, `DeletedRootRight`). `RootTellsHistory` and `NothingHasARoot` are runs for any two keys that part
  at once; the latter leaves a branch without keys where the empty trie should be.
- `ethutil/trie.go:52` replaces the one node that all equal references share, so that the kinds on one key's path can change
  by an update of another key: `TwinsHide` is a run in which two keys answer "" only because three others were written
  like them, and in `EvenedIsStale` a deletion makes another branch one that was read back, and the next one leaves it
  stale. What needs no kinds is this: as long as every branch on a deleted key's path keeps two occupied slots, the trie is
  the tree that is meant and answers with its content, whatever was cached or read back (`SpaciousIsSteady`).
- `ethutil/trie.go:105-112` drops what was put since the last Sync, so that a node that was put again with the same bytes is
  read back. Undo answers whatever was answered at the Sync, but a key that was hidden then may answer again
  (`UndoAfterRun`, `UndoShows`).
- `ethutil/rlp.go:176` writes a decoded byte through `big.Int`, so a single zero byte that was read is written as the empty
  string (`ReloadedPlain`); a value "\x00" is gone once another key split its leaf after a reading back
  (`ZeroByteForgotten`, `ZeroByteAnswers`). Runs that never write that value are not touched by it (`NoZeroRoot`).
- `ethutil/value.go:189-191` compares roots by `reflect.DeepEqual`, which tells Go kinds apart: two empty tries, or two with
  the same small content, may differ. Roots that are hashes are compared as meant (`Cmp`).
- `ethutil/trie.go:363` slices without the guard of line 205 and panics when a path is longer than the rest of the key and
  the spare capacity behind it (`Overruns`); what the deletion does otherwise is what a guard would have made it do.
- `ethutil/trie.go:534` iterates an inline extension child under the key without the extension's nibbles, line 541 asks
  for nothing when the child's hash is a Go string, and line 547 passes over a branch value that is a single low byte and
  was read back (`VisitedExact`, `CallsExact`: iterating is right if and only if the tree has none of these).
- `ethutil/trie.go:429-436` copies dirty nodes without the dirty flag and without the old root (`SyncOfCopy`).
- `ethutil/helpers.go:52` slices before it tests the bound (`MatchingNibbleLength`); decoded paths always have the spare
  element it needs (`MatchingNibblesInTrie`).
- `ethutil/rlp.go:108-118` reads a list until its items reach the declared length, so that the last may go beyond it.
  Encode writes the shortest form whose lists are as long as they say (`EncodeIsShortest`), but one whose last item goes
  beyond may be shorter (`OvershootIsShorter`).
- `ethutil/bytes.go:45-65` reads length fields and nonces of 3, 5, 6 or 7 bytes by their first byte (`RoundTrip` says for
  which items that does not matter, `ThreeByteLengthMisread` has one for which it does; `NonceGrows`, `NonceServesTwice`).
- `ethutil/common.go:50` makes `Big2` one, so every SSTORE that is not free has the same price (`StorePrice`).
- `ethchain/stack.go:60-64` looks at the bottom of the stack, so SSTORE is priced by the two oldest words (`StepPrice`).
- A self-send is checked against `value + gas * price` and pays `GasTx * price`; an amount below zero is stored without
  its sign (`SettledTotal`; `TotalFallsByFees` says when balances fall by the fees, `DebtBecomesBalance` is a case where
  they do not).
- `ethchain/vm.go:136-142` prices CREATE by the sum of two words that may be negative: such a step adds gas
  (`CreatePriceSign`, `NegativeCost`). Without negative sums, and CALLs that ask for negative gas, a run costs at least
  nothing and at most its gas, and ends (`RunBounded`).
- `ethchain/state_manager.go:382-386` returns no gas at all when the amount is too low, which `ApplyTransaction` would add
  to a total (`EvalScript`).
- A reverted state shares the snapshot's tries, and objects looked up before a revert write to the tries left behind
  (`SnapshotServesOnce`, `StaleObject`). A storage write into an account without a nested state is lost unless the account
  is updated (`StoreAnswers`).
- `ethchain/state.go:29-36` keeps the states that were nested since the last Sync, so that a Reset may leave words that were
  not there (`ResetExact` says exactly when, `ResetKeepsNested` is such an update; none do behind storage writes alone,
  `StoresReset`).

## Model

| member | source | states |
|---|---|---|
| HexPrefix.CompactEncode | ethutil/encoding.go:9-33 | The loop and flags produce the hex-prefix form of a path of either parity with or without terminator |
| HexPrefix.CompactHexDecode | ethutil/encoding.go:50-61 | A key becomes its nibbles with the terminator behind them |
| HexPrefix.CompactDecode | ethutil/encoding.go:35-48 | The decoder computes the path of any non-empty string, flags and padding removed |
| HexPrefix.DecodeCompact | ethutil/encoding.go:63-76 | The digits of a path make its bytes; an odd digit at the end is dropped |
| HexPrefix.ExpandInvertsCompact | ethutil/encoding.go:9-48 | Decoding inverts encoding on every non-empty nibble list with an optional final 16 |
| HexPrefix.CompactInvertsExpand | ethutil/encoding.go:9-48 | Encoding inverts decoding on a byte string if and only if its flags and padding are canonical |
| HexPrefix.CompactInjective | ethutil/encoding.go:9-33 | Different paths have different encodings |
| HexPrefix.PathKeyInvertsKeyPath | ethutil/encoding.go:50-76 | DecodeCompact inverts CompactHexDecode on every byte string |
| HexPrefix.PathKeyExact | ethutil/encoding.go:63-76 | Byte by byte, for paths of either parity: two nibbles each, an odd one at the end dropped |
| HexPrefix.KeyPathInjective | ethutil/encoding.go:50-61 | Different keys have different paths |
| HexPrefix.KeyPathExact | ethutil/encoding.go:50-61 | Digit by digit: the high one of each byte first, 16 at the end |
| HexPrefix.CompactExact | ethutil/encoding.go:9-33 | Byte by byte: 2 for a terminator and 1 for an odd length in the first digit, the first nibble of an odd path behind it, two nibbles in every other byte |
| HexPrefix.ExpandExact | ethutil/encoding.go:35-48 | Digit by digit, for any string: those behind the flag and the padding, and 16 for a flag above 1 |
| Slices.CompareIntSlice | ethutil/helpers.go:37-47 | The loop answers whether two slices are equal |
| Slices.MatchingNibbleLength | ethutil/helpers.go:50-57 | The loop finds where two slices part, seen through their spare capacity, and panics exactly when that runs out |
| Slices.MatchingNibblesInTrie | ethutil/helpers.go:50-57 | For a terminated key against a decoded path other than it, it never panics and finds the common prefix, whatever lies behind the key |
| Rlp.Encode | ethutil/rlp.go:150-224 | The printer with its buffers writes the encoding of any nested item, which is the shortest of those whose lists are as long as they say (EncodeIsShortest) |
| Rlp.Decode | ethutil/rlp.go:82-142 | The parser with its loops and its two length regimes reads what DecodeAt says, and panics where it has none |
| Rlp.DecodeExact | ethutil/rlp.go:82-142 | At the place of an encoding in any data, decoding returns the item and then the position just past it if and only if the item reads back |
| Rlp.RoundTrip | ethutil/rlp.go:82-224 | Decoding prefix, encoding and suffix at the prefix's end returns the item and the position just past it if and only if it reads back |
| Rlp.StrReadsBack | ethutil/bytes.go:45-65 | A byte string reads back if and only if its length is below 56 or its length field is 1, 2, 4 or 8 bytes wide |
| Rlp.ExactWidthsReadBack | ethutil/bytes.go:45-65 | Nested items all of whose length fields have these widths read back |
| Rlp.SmallReadsBack | ethutil/bytes.go:45-65 | Every item whose encoding has fewer than 65536 bytes reads back |
| Rlp.PrefixFree | ethutil/rlp.go:150-224 | No encoding of a readable item is a prefix of another one's, so Encode is injective on them |
| RlpForms.ReadVarintExact | ethutil/bytes.go:45-65 | A field is read as the number it holds in 1, 2, 4 or 8 bytes, and by its first byte otherwise |
| RlpForms.DecodesSpelled | ethutil/rlp.go:82-142 | On any data, at any position: Decode reads an item up to a place if and only if the grammar of RLP has these bytes for it, in which a list may go beyond its declared length with its last item |
| RlpForms.SpelledDecodes | ethutil/rlp.go:82-142 | Every form in which all lists are as long as they say is decoded in full |
| RlpForms.EncodeSpells | ethutil/rlp.go:150-224 | Encode writes such a form, whenever its length fields are 1, 2, 4 or 8 bytes wide |
| RlpForms.EncodeIsShortest | ethutil/rlp.go:150-224 | No such form is shorter than the one Encode writes, and none of that length is another |
| RlpForms.StrShortest | ethutil/rlp.go:150-224 | Whatever bytes are decoded as a string, Encode writes it in no more |
| RlpForms.OvershootIsShorter | ethutil/rlp.go:108-118 | A list that declares one byte and holds 56 is decoded, and is one byte shorter than what Encode writes |
| Vectors.OddVectors | ethutil/encoding_test.go:8-28 | The bytes of paths of odd length, open and terminated |
| Vectors.EvenVectors | ethutil/encoding_test.go:8-28 | The bytes of paths of even length |
| Vectors.KeyPathVector | ethutil/encoding_test.go:30-37 | The nibbles of "verb" |
| Vectors.ItemVectors | ethutil/rlp_test.go:58-80 | The bytes of "a", "dog", "", the empty list and 1024 |
| Vectors.ListVector | ethutil/rlp_test.go:67-73 | The bytes of ["dog", "god", "cat"] |
| Vectors.LongVectors | ethutil/rlp.go:186-224 | The header of any string of 56 and of 1024 bytes |
| PatriciaTree.InsertCanonical | ethutil/trie.go:270-340 | Insertion keeps the canonical shape: leaf paths end in 16, extensions are open and lead to branches, branches have two occupied slots |
| PatriciaTree.LookupInsert | ethutil/trie.go:165-340 | After an insertion the key has the new value and every other key its old one, through splits and merges |
| PatriciaTree.DeleteCanonical | ethutil/trie.go:342-421 | The deletion that is meant keeps the canonical shape, and never leaves an empty child below an extension |
| PatriciaTree.LookupDelete | ethutil/trie.go:342-421 | After the deletion that is meant the key is gone and every other key has its old value, through joins and collapses |
| TrieTheorems.Unique | ethutil/trie.go:188-217 | Two canonical trees that answer every lookup alike are the same tree |
| TrieTheorems.RunHolds | ethutil/trie.go:165-421 | The tree that is meant is, after every run of updates and deletions, canonical, and answers every path as the map of the run does |
| TrieTheorems.HistoryIndependence | ethutil/trie.go:270-426 | Any two runs from the empty trie are meant to end in the same tree if and only if they leave the same content |
| CodedTree.AnswerIsLookup | ethutil/trie.go:188-217 | GetState answers with the lookup in the tree without what hangs below a hash kept as a Go string |
| CodedTree.PlaceIsInsert | ethutil/trie.go:270-340 | For lookups InsertState by itself, before its puts reach equal nodes elsewhere, is the insertion that is meant |
| CodedTree.RemoveExact | ethutil/trie.go:342-421 | A deletion by itself, before its puts reach equal nodes elsewhere, removes its key and keeps what Get answers for every other one if and only if it does not reach line 410 with a grandchild node, inline or stored, that bears a key |
| CodedRight.CountExact | ethutil/trie.go:392-401 | The loop counts the occupied slots if and only if no empty slot was read back, or two are occupied anyway |
| CodedRight.DeletionRight | ethutil/trie.go:342-421 | On a canonical tree without losses, in whatever kinds it is seen: what a deletion writes is the tree that is meant, and canonical at all, if and only if no branch is left stale and no inline grandchild is met; no hash becomes a Go string if and only if no stored grandchild is met |
| SharedNodes.InsertedFits | ethutil/trie.go:46-340 | With the puts on the way, each of which reaches every equal stored node, InsertState writes what Place says: they change kinds only |
| SharedNodes.DeletedFits | ethutil/trie.go:46-421 | Likewise DeleteState and Remove |
| SharedAnswers.InsertedAnswers | ethutil/trie.go:46-340 | On every tree that hides no key an insertion, its puts included, changes what Get answers at its key and nowhere else, and hides nothing |
| SharedAnswers.DeletedExact | ethutil/trie.go:46-421 | On every tree that hides no key a deletion, its puts included, removes its key and keeps every other answer if and only if it does not reach line 410 with a node that bears a key, inline or stored |
| Reading.ReloadKeepsWritten | ethutil/trie.go:62-76 | Reading a tree back changes kinds, and brings hashes back, but nothing of what is written |
| Reading.WordKinds | ethutil/rlp.go:85-88 | A value comes back as a byte if and only if it is one below 0x80, an empty slot as empty bytes, and a hash as a hash |
| Reading.ReloadedNeverCollapses | ethutil/trie.go:392-415 | A branch that was read back is left with its 17 slots, whichever slot is cleared |
| CodedRuns.RunRightExactly | ethutil/trie.go:46-421 | For runs of updates, also ones that panic, with Syncs that empty the cache and new tries anywhere, and kinds kept per stored node: after every event the trie is written as is meant and hides no key if and only if no deletion leaves a branch stale or meets a node at line 410 that bears a key |
| CodedRuns.RunAnswersExactly | ethutil/trie.go:46-421 | In such a run Get answers with its content after every event, also on stale branches, if and only if no deletion meets a node at line 410 that bears a key |
| CodedRuns.SpaciousIsSteady | ethutil/trie.go:342-421 | By the updates alone: as long as every branch on a deleted key's path keeps two occupied slots, the trie is after every event the tree that is meant, whatever was cached or read back |
| GoValues.ReloadedPlain | ethutil/rlp.go:82-224 | An item that is read and written again is the same item if and only if no string in it is a single zero byte |
| GoValues.KindsExact | ethutil/rlp.go:82-224 | One byte below 0x80 is read as a byte, any other string as bytes, a list as its items; a byte is written as itself, and zero as nothing |
| GoValues.ZeroByteForgotten | ethutil/trie.go:303-312 | A leaf of the value "\x00" that is read back, moved by a split, written and read again has an empty value, and its bytes are not those of a leaf never read back |
| NodeRefs.RefInjective | ethutil/trie.go:424-426 | Under the assumption on the hash, equal references lead to equal trees, canonical or not |
| Vectors.NodeExact | ethutil/trie.go:46-60 | A two-slot node is its path in hex-prefix form and its value, the node below it when that takes up to 31 bytes, or the hash of it from 32 on |
| Vectors.LeafVector | ethutil/trie.go:270-340 | The nodes and bytes of the trie with "a" under the key "a" |
| Vectors.BranchVector | ethutil/trie.go:270-340 | Two keys that part at once: each rest in the slot of its nibble, nothing in the other 15 |
| NodeRefs.RootsCompareContents | ethutil/trie.go:424-426 | The roots of two runs in which no deletion leaves a branch stale or meets a node at line 410 that bears a key, kinds kept per stored node, are equal if and only if the runs leave the same content |
| NodeRefs.DeletedRootRight | ethutil/trie.go:342-426 | After such a run a deletion leaves the root for the content if and only if it leaves no branch stale and meets no inline node |
| NodeRefs.LongValuesReturn | ethutil/trie.go:402-411 | With values of 32 bytes or more: the bytes are right if and only if no branch is left stale, and then no key is hidden if and only if no node that bears a key is met at line 410, and a trie opened again hides none in any case |
| NodeRefs.NoZeroRoot | ethutil/rlp.go:176-183 | Runs that never write the value "\x00" store no node that reading and writing again would change |
| TrieViews.NowReadBack | ethutil/trie.go:62-76 | Followed through a view that was read from the database, a tree is seen as Reload says |
| TrieViews.PutRenews | ethutil/trie.go:46-60 | A put replaces the one node that all equal references share: every tree that is seen becomes what Renew says |
| TrieViews.NowEmptied | ethutil/trie.go:84-103 | When the cache is emptied what is stored is read back, and what is inline in it; the rest is kept |
| TrieViews.RereadStill | ethutil/trie.go:105-112 | In a view in which some nodes were read again every tree is written alike, and nothing is hidden that was not |
| TrieCache.Cache.Put | ethutil/trie.go:46-60 | Encodings of 32 bytes or more are kept under their hash as dirty, in place of what was kept there, shorter values are returned as they are |
| TrieCache.Cache.Get | ethutil/trie.go:62-76 | The node seen under a known hash, from the cache or from the database, or nil under the empty key; a read entry is clean |
| TrieCache.Cache.Commit | ethutil/trie.go:84-103 | All dirty nodes are written when the flag is set; above 200 entries the cache is emptied |
| TrieCache.Cache.Undo | ethutil/trie.go:105-112 | Exactly the dirty nodes go |
| TrieObject.Trie.GetNode | ethutil/trie.go:219-234 | A reference resolves to its node, inline or through the cache; a hash kept as a Go string to nothing |
| TrieObject.Trie.GetState | ethutil/trie.go:188-217 | The recursion on Go values finds what Find finds in the tree that is seen |
| TrieObject.Trie.InsertState | ethutil/trie.go:270-340 | The recursion on Go values puts exactly the nodes, and returns a reference to exactly the tree, that SharedNodes.Inserted says, and every other tree becomes what those puts make of it |
| TrieObject.Trie.DeleteState | ethutil/trie.go:342-421 | Likewise for SharedNodes.Deleted, with both departures at lines 394 and 410; it panics if and only if a path overruns the key and the spare room, and then has put nothing |
| TrieSteps.OverrunsExact | ethutil/trie.go:363 | A path overruns if and only if the walk along the key comes to one that is longer than the rest of the key and the spare room |
| TrieObject.Trie.Update | ethutil/trie.go:165-172 | The tree that is seen becomes exactly the next one of the run, kinds included, and its node is dirty, or stays when the deletion panics |
| TrieObject.Trie.Get | ethutil/trie.go:174-182 | Get answers as the tree that is seen, and changes no tree |
| TrieObject.Trie.Sync | ethutil/trie.go:148-151 | What is written stays and is what Undo goes back to; if dirty nodes were flagged all of it is in the database; it is seen in the same kinds unless the cache was emptied |
| TrieObject.Trie.Undo | ethutil/trie.go:153-156 | The root of the last Sync is back, what was written then is behind it, each node as it was seen then or as it is read from the database, and nothing is hidden that was not |
| TrieObject.Trie.Cmp | ethutil/trie.go:424-426 | Roots compare equal if and only if the tries are written alike and the roots are of the same Go kinds throughout, as two hashes are |
| TrieObject.Trie.Copy | ethutil/trie.go:429-436 | A copy has the same tree on new nodes; its flag is down and its old root is the current one |
| TrieRuns.OpenAgain | ethutil/trie.go:139-145 | A new trie on the root that was written sees the tree as Reload says, and every hash as one, provided the root holds no single zero byte |
| TrieRuns.GetAfterRun | ethutil/trie.go:46-421 | After any run on the object, with Syncs and new tries on the written root anywhere in it, the tree that is seen is the one of the events that happened. Get answers with the content unless a deletion met a node that bears a key; unless one left a branch stale either, the root is the one for the content; both follow from the updates alone when every branch on a deleted key's path keeps two occupied slots, as without deletions |
| TrieRuns.UndoAfterRun | ethutil/trie.go:105-156 | After a Sync, any run of updates and deletions, also one that loses keys or panics, and an Undo, the root is the old one and Get answers every value it answered before; it answers nothing else if the trie hid no key |
| RunNodes.ClosedExists | ethutil/trie.go:46-421 | The nodes that any run of given updates can leave, and those it can store, are finitely many, whatever is read back |
| TrieRuns.SyncOfCopy | ethutil/trie.go:429-436 | Sync on a fresh copy writes nothing; its old root can be restored if and only if the original's nodes were stored already |
| TrieRuns.StaysReadable | ethutil/trie.go:62-76 | What other tries write to the shared database leaves a trie as it is |
| TrieRuns.RunBesideCopy | ethutil/trie.go:429-436 | After a copy, any run of updates, deletions, panics, Syncs and Undos on the original leaves every Get on the copy as it was |
| Iteration.ListingIsContent | ethutil/trie.go:521-561 | The in-order listing of a canonical tree has exactly the keys with a value, each with the value that lookup returns |
| Iteration.ListingDistinct | ethutil/trie.go:521-561 | It has no key twice |
| Iteration.ListingInOrder | ethutil/trie.go:521-561 | It is in the order of the paths |
| Iteration.VisitedExact | ethutil/trie.go:529-561 | What the iterator visits is that listing if and only if no extension leads to an inline node or a hash kept as a Go string, and no branch value is a low byte read back |
| Iteration.BelowExtension | ethutil/trie.go:529-541 | Where it is not right: all below an inline child is called under the path without the extension's nibbles, nothing below a hash kept as a Go string |
| Iteration.LowValueSkipped | ethutil/trie.go:545-548 | A branch value that is a low byte read back is the one call that is missing |
| Iteration.ListedCalls | ethutil/trie.go:521-561 | For a trie that holds a map, the calls for the listing are the entries of the map, each once |
| Iteration.CallsExact | ethutil/trie.go:521-561 | The callbacks are those calls under exactly the same condition |
| Iteration.TrieIterator.Each | ethutil/trie.go:521-527 | The iterator object calls back with what the visit says, and with nothing when the root is not a hash |
| TrieLoss.HistoryMatters | ethutil/trie.go:408-411 | Two concrete runs with the same content whose trees differ: the detour through a third key loses both others, and reading back does not help |
| TrieLoss.ForkIsInline | ethutil/trie.go:46-60 | For the value "\x01" the node lost in that run is inline, whatever the hash |
| TrieLoss.HistoryHides | ethutil/trie.go:408-411 | The same runs with any value of 32 bytes or more: the roots are right, both keys answer "" until the trie is opened again, and their values then |
| TrieLoss.LostForGood | ethutil/trie.go:277-281 | An update of one of them before that loses the other for good |
| TrieLoss.RootTellsHistory | ethutil/trie.go:392-415 | Any two keys that part at once, opened again, one deleted: the content is that of the other key alone, the tree is not |
| TrieLoss.NothingHasARoot | ethutil/trie.go:392-415 | Both deleted: the content is empty, the root is not |
| TrieLoss.ZeroByteAnswers | ethutil/trie.go:303-312 | The moved leaf of a zero byte, read back, answers "" at its key |
| SharedLoss.TwinsHide | ethutil/trie.go:46-60 | A run of six keys with long values: after three of them the trie is opened again, and a deletion among those hides two; had the other three, which are written alike, not been put, it would have met nothing |
| SharedLoss.EvenedIsStale | ethutil/trie.go:46-60 | A run in which a deletion puts a branch that was read back in place of one that was not, so that the next deletion there leaves it stale and the tree is not the one for the content |
| UndoLoss.UndoShows | ethutil/trie.go:105-112 | On the object: two keys answer "" before a Sync, an update, a deletion and an Undo, and their value after it |
| GasTraces.CreatePriceSign | ethchain/vm.go:22-31 | CREATE costs nothing less than zero if and only if its two words do not add up below zero |
| GasTraces.RunBounded | ethchain/vm.go:65-555 | Every run without negative sums and requests, children included, costs at least nothing, hands at least nothing past the frame, takes no more than its gas for both, and its loops turn at most once more than twice its cost |
| GasTraces.ReportIsCost | ethchain/closure.go:76-82 | A frame that made no CREATE hands nothing past itself, so that what it reports as used is what its run cost |
| GasLaws.OpcodeExact | ethchain/closure.go:52-64 | The opcode of a line that goes on is the byte at its position |
| GasLaws.JumpsExactly | ethchain/vm.go:406-419 | The line behind a JUMP stands at the top word; behind a JUMPI there if the word below is 1, and at the next position otherwise; behind a push past its bytes; behind anything else at the next position |
| GasLaws.StackExact | ethchain/vm.go:157-546 | Every opcode takes and leaves its number of words, and the ones below stay |
| GasLaws.ArithmeticExact | ethchain/vm.go:162-238 | The word that ADD, SUB, MUL, DIV, MOD and NEG leave |
| GasLaws.SignedExact | ethchain/vm.go:190-228 | SDIV and SMOD, which take numbers above 2^256 from 2^256 |
| GasLaws.ComparisonsExact | ethchain/vm.go:239-265 | LT, GT and EQ leave 1 or 0 |
| GasLaws.LogicExact | ethchain/vm.go:266-292 | NOT, AND and OR: AND of two words from 1 on, OR if either is not negative |
| GasLaws.PushesExactly | ethchain/vm.go:357-366 | A push leaves the bytes behind it as one number |
| GasLaws.WordsExact | ethchain/vm.go:370-377 | DUP copies, SWAP exchanges |
| GasLaws.PriceExact | ethchain/vm.go:117-155 | What each opcode is paid, in numbers, out of the gas there was |
| GasLaws.GasExact | ethchain/vm.go:151-155 | The gas from line to line: less the price, what a CALL's child cost, and all of it at a CREATE |
| GasLaws.ChildExact | ethchain/vm.go:443-504 | Which lines have children, and with what gas |
| GasLaws.AnswerExact | ethchain/vm.go:458-520 | CALL leaves 1 exactly for a child that stopped or returned |
| GasLaws.ExitExact | ethchain/vm.go:65-555 | Which opcode, or which lack of gas, each way out of a frame takes |
| GasLaws.PanicExact | ethchain/vm.go:65-86 | What a panic needs: too short a stack, a division by zero, a position or bytes that are not there, or an opcode that looks outside the stack |
| GasLaws.LastOpcode | ethchain/closure.go:52-64 | The opcode of the last line, STOP behind the script and in a script of one byte |
| GasLaws.Int64Exact | ethchain/closure.go:56-64 | Positions are cut to 64 bits with a sign |
| GasLaws.LoopBurnsAll | ethchain/vm.go:412-419 | A script that jumps back to its start: every run of it takes one turn for every unit of gas and ends for want of it |
| GasLaws.NegativeCost | ethchain/vm.go:136-142 | A run of ten bytes of script in which CREATE sees -1 costs 95 less than nothing |
| GasMachine.StepPrice | ethchain/vm.go:117-149 | The pricing switch: flat prices, SSTORE by the bottom words, CREATE by the second and third word, and what panics |
| GasMachine.Account.ConvertGas | ethchain/state_object.go:122-131 | Gas is bought if and only if the amount covers it |
| GasMachine.Closure.UseGas | ethchain/closure.go:97-107 | Gas moves to used gas if and only if there is enough |
| GasMachine.Charge | ethchain/vm.go:151-155 | A step's price leaves the running frame for the charge, or nothing changes |
| GasMachine.Open | ethchain/closure.go:30-40 | A new frame gets what its creator hands over, and the books balance |
| GasMachine.Return | ethchain/closure.go:84-95 | What is left goes to the callee or the account, and no other frame changes |
| GasMachine.SumCredited | ethchain/closure.go:110-114 | Handing gas to one frame adds it to what all hold |
| GasMachine.Ordinarily | ethchain/vm.go:157-424 | Stack effects, jumps, words and panics of the other opcodes: too short a stack panics, the words below are untouched, a JUMPI jumps exactly on 1 (JumpsExactly, StackExact and the laws of the words say it from line to line) |
| GasMachine.CreateFrame | ethchain/vm.go:443-457 | All remaining gas goes to a frame whose callee is the creator's callee, which gets back all but the cost of the run that is written down |
| GasMachine.CallFrame | ethchain/vm.go:492-508 | The gas asked for goes to a frame whose callee is the caller, which gets back all but the cost of the run that is written down |
| GasMachine.Call | ethchain/vm.go:467-522 | The line of a CALL: its child, if one ran, got the gas asked for, all of it for 0; with less than is asked none ran; 1 is pushed exactly when a child ended without an error |
| GasMachine.Ending | ethchain/vm.go:523-545 | RETURN, SUICIDE, STOP and invalid opcodes: the frame returns once, or panics with nothing returned yet |
| GasMachine.Step | ethchain/vm.go:91-155 | One turn of the loop has a line with the opcode at its position, the price that fits the stack, what it did to the stack and its child, and moves exactly its cost and what it hands ahead |
| GasMachine.RunClosure | ethchain/vm.go:65-555 | What a frame does is a run of its script, and every exit is one that this run calls for. All gas but the cost of the run goes once to the callee, other frames keep theirs, used gas is the cost plus what CREATE handed past the frame, and the books balance after any number of steps of the whole call tree |
| GasMachine.EvalScript | ethchain/state_manager.go:379-406 | The account ends lower by exactly price times the cost of a run of the script; the gas reported is that cost and what CREATE handed ahead; without negative sums and requests the run ends within one step more than twice its gas; without the amount nothing runs and none is reported |
| States.State.GetStateObject | ethchain/state.go:58-75 | The record, with the nested state that is there, else a new one below the record's root |
| States.State.GetStorage | ethchain/state_object.go:85-90 | A storage word is that of the nested state, if there is one, else the one below the record's root |
| States.State.UpdateStateObject | ethchain/state.go:77-90 | The record is stored, and a nested state that is there already stays, whatever the object carries |
| States.State.Copy | ethchain/state.go:107-118 | A copy answers every lookup, nested ones too, from tries and nested states that are all new |
| States.State.Sync | ethchain/state.go:39-46 | Lookups stay, and are what a Reset goes back to, at every depth |
| States.State.Reset | ethchain/state.go:29-36 | On tries that were not copied, every lookup goes back to the last Sync, at every depth |
| States.State.Revert | ethchain/state.go:120-123 | Every lookup answers as the snapshot's |
| StateRuns.PerformAll | ethchain/state.go:29-123 | No run of updates, storage writes, syncs, resets and inner snapshots reaches a snapshot, and every lookup of the state itself is the one that AfterAll tells of the run |
| StateRuns.Guarded | ethchain/state.go:107-123 | After a snapshot, any such run and a revert, every account and nested storage lookup answers as before; without the revert as the run says |
| StateRuns.StoreAnswers | ethchain/state_object.go:75-83 | A storage write is answered from then on, and every other word and record as before, if the account has a nested state or is updated; otherwise it is lost |
| StateRuns.PutAnswers | ethchain/state.go:77-90 | An update's record is answered; the words are those of the nested state that was there, else of the object's own, else those below the record's root; no other account changes |
| StateRuns.StoreNowhere | ethchain/state.go:58-63 | Without an account there is no object to write through |
| StateRuns.NothingChanges | ethchain/state.go:29-123 | A Sync, and an inner call that fails, change no lookup; what was just synced a Reset leaves |
| StateRuns.RunOfOne | ethchain/state.go:29-123 | A run of one operation is that operation, also in an inner call that succeeds |
| StateRuns.RunsCompose | ethchain/state.go:29-123 | What a run leaves is what its parts leave one after the other |
| StateRuns.OthersAnswer | ethchain/state.go:29-123 | An account that a run is not about keeps its record and every word |
| StateRuns.ResetExact | ethchain/state.go:29-36 | Behind any run of updates and writes a Reset brings back every record, and every word of an account if and only if it was nested at the last Sync, or was not since, or had no record, or what was nested has the words below that record |
| StateRuns.StoresReset | ethchain/state.go:29-36 | Behind a Sync a Reset takes back any storage writes with their updates |
| StateRuns.ResetKeepsNested | ethchain/state.go:29-36 | An update with a state of its own whose word is still answered behind a Reset |
| StateRuns.SnapshotServesOnce | ethchain/state.go:120-123 | What is put after a revert is in the snapshot too |
| StateRuns.StaleObject | ethchain/vm.go:496-515 | A storage write through an object looked up before the revert is seen by no lookup |
| Transactions.AccountReread | ethchain/state_object.go:149-169 | Storing an account and reading it back gives the amount without its sign and the nonce as ReadVarint reads it |
| Vectors.RecordVector | ethchain/state_object.go:149-158 | The bytes of an account: amount, nonce, storage root, code hash |
| Transactions.ReadNumber | ethutil/bytes.go:45-65 | A stored number is read in full if and only if it has at most 2, 4 or 8 bytes, and never as more than it is |
| Transactions.ProcessTransaction | ethchain/transaction_pool.go:95-154 | Verdict, gas and both accounts of one transaction, in the order they are stored; VerdictExact, GasExact and TransferExact say what these are |
| Balances.VerdictExact | ethchain/transaction_pool.go:104-134 | Which transactions go through, and what the others report and leave |
| Balances.GasExact | ethchain/transaction_pool.go:115-138 | 100 for every 32 bytes of data, and 500 for a send to oneself |
| Balances.TransferExact | ethchain/transaction_pool.go:127-149 | The recipient holds the value more, the sender the value and its gas less, the nonce is one higher, and every other account is as it was; a send to oneself pays for 500 |
| Balances.BalanceExact | ethchain/state_manager.go:114-137 | Over any list, for every account: its balance is the opening one plus the values received minus the values and fees paid, plus twice what sends to itself overdrew |
| Balances.ReceiptsExact | ethchain/state_manager.go:114-137 | Exactly those with a wrong nonce get no receipt; each receipt has the gas so far and the accounts behind its transaction |
| Transactions.ApplyTransactions | ethchain/state_manager.go:114-137 | The loop with its receipts: a nonce error leaves no trace, any other failure gets a receipt |
| Transactions.ReplayValid | ethchain/state_manager.go:114-137 | Running the valid transactions alone is the same run, receipts and all |
| Transactions.LastReceipt | ethchain/state_manager.go:130-135 | The last receipt tells the accounts and the total gas |
| Transactions.NonceGrows | ethchain/transaction_pool.go:109-128 | A sender's nonce grows by exactly its successful transactions if and only if every nonce on the way is read back in full, and never by more |
| Transactions.NoNonceTwice | ethchain/transaction_pool.go:109-113 | Then no nonce of a sender serves twice: those that succeed grow strictly |
| Transactions.NonceServesTwice | ethutil/bytes.go:59-62 | After 65535 transactions the first one succeeds again |
| Transactions.SettledTotal | ethchain/transaction_pool.go:127-145 | One success takes its fee from the total of all balances, plus twice what a self-send overdraws back |
| Transactions.TotalFallsByFees | ethchain/transaction_pool.go:95-154 | Over any list the total falls by exactly the fees of the successes if and only if no self-send overdraws |
| Transactions.NoOverdrafts | ethchain/transaction_pool.go:131-145 | None overdraws if and only if no account object ever goes below zero |
| Transactions.SelfSendsWithGas | ethchain/transaction_pool.go:131-134 | Lists whose self-sends carry at least GasTx gas never overdraw |
| Chain.BlockChain.GetChainFromHash | ethchain/block_chain.go:226-253 | Both loops, with the wrap-around of the numbers and the panics on missing blocks, compute Served |
| Chain.ServedRange | ethchain/block_chain.go:226-253 | For any hash on the current chain: connected blocks, newest first, from where the passing over stops. Unless more are passed over than lie above the hash they reach down to it if and only if there are no more blocks between than the numbers say, and are as many as those say if and only if there are no fewer; a shorter range has come upon the hash, and a panic has gone beyond the first block; nothing is served when the current block has the lower number |
| Chain.ServesAbove | ethchain/block_chain.go:226-253 | On a numbered chain: exactly the smaller of height difference and max, the last being the child of the hash |
| Chain.Uint64Exact | ethchain/block_chain.go:230-236 | Block numbers wrap around at 2^64 |
| Chain.BlockChain.GetChain | ethchain/block_chain.go:255-271 | The loop that puts parents in front computes Ending |
| Chain.EndingFollows | ethchain/block_chain.go:255-271 | Stored blocks, each following the one before, up to the hash, none behind the genesis block; fewer than asked only from that or a missing parent on |
| Chain.BlockChain.CalculateTD | ethchain/state_manager.go:278-299 | The total is raised, and the block accepted, if and only if it and its uncles have difficulty |
| Chain.WeightExact | ethchain/state_manager.go:278-299 | What it is raised by is the block's difficulty and that of every uncle |
| Chain.BlockChain.Process | ethchain/state_manager.go:197-276 | An unknown parent is the parent error; a known block changes nothing and is no error; any other is rejected exactly when it does not check out, and added otherwise, unless it has no weight |
| Chain.BlockChain.Receive | peer.go:369-386 | From the last block to the first until one fails: what is taken in, which block is the first to fail, and with what |
| Chain.UnknownParent | peer.go:369-402 | Processing connected blocks onto a known one meets an unknown parent if and only if the block taken in just before was new and silently not added |
| Chain.AllAdded | ethchain/state_manager.go:253-276 | New blocks with weight are all added, the first is the new current block, the total grows by all their weights |
| Chain.KnownRangeRepeats | ethchain/state_manager.go:215-218 | A range that is all known changes nothing |
| Chain.KnownPass | ethchain/state_manager.go:215-218 | Known blocks on known parents never stop the loop |
| Chain.Peer.HandleGetChain | peer.go:452-493 | The reply starts from the first known hash; without one the last hash is sent back, and without hashes nothing |
| Chain.Peer.HandleBlocks | peer.go:331-415 | What is taken in, when catching up goes on, and when it starts again; a range that is all known ends without an error and with the same request again |
| Chain.RoundServes | peer.go:479-482 | The reply to a peer behind on this chain is connected onto what that peer holds, and all new to it |
| Chain.RoundCloser | peer.go:369-415 | Taken in whole it brings the peer closer by the smaller of the distance and 100 |
| Chain.GoesThrough | peer.go:369-386 | The reply goes through if and only if each of its blocks checks out on top of its parent |
| Chain.CatchUp | peer.go:369-415 | The whole exchange never meets an unknown parent, and ends without an error, at the server's current block, if and only if every block on the way checks out on top of its parent |
| Wire.WriteMessage | ethwire/messaging.go:166-175 | Token, 32-bit length and encoding |
| Wire.PacketExact | ethwire/messaging.go:166-175 | The bytes of a packet: 34, 64, 8, 145, four of length with the most significant first, the list of the kind and the data |
| Wire.ReadExact | ethwire/messaging.go:72-105 | What is read from any bytes: nothing, an error, a panic, or the message and what is behind it |
| Vectors.PacketVector | ethwire/messaging.go:166-175 | The bytes of a message of kind 0x13 without data |
| Wire.ReadMessages | ethwire/messaging.go:114-160 | The loop splits what was read as ReadAll says: an error ends it silently, a panic keeps the messages so far |
| Wire.FourBytesBack | ethutil/bytes.go:13-40 | The length field reads back modulo 2^32 |
| Wire.PayloadExact | ethwire/messaging.go:91-102 | A payload yields its message if and only if it reads back |
| Wire.ReadsPacked | ethwire/messaging.go:72-105 | In front of anything, a packed message is read as itself, leaving the rest, if and only if its payload reads back |
| Wire.FramingRoundTrip | ethwire/messaging.go:72-175 | For payloads below 2^32 bytes: the packed messages are split into exactly those messages in order, without error, if and only if every payload reads back |
| Wire.SmallMessages | ethwire/messaging.go:72-175 | They are when every payload is below 65536 bytes |
| Wire.ReadsUpTo | ethwire/messaging.go:114-160 | Messages in front of anything are kept; too few bytes or another token end the reading silently, a length beyond what was read with a panic |
| Mnemonic.IndexOf | ethutil/mnemonic.go:9-16 | The loop finds the first place of a word, or -1 |
| Mnemonic.MnemonicEncode | ethutil/mnemonic.go:18-31 | The chunks, their three words and the panics on indices out of range |
| Mnemonic.MnemonicDecode | ethutil/mnemonic.go:33-60 | The triples, the corrected remainders, the printed numbers and the panic on a list that is no multiple of three |
| Mnemonic.HexExact | ethutil/mnemonic.go:24 | The digits in order, of either case, the most significant first |
| Mnemonic.EncodeExact | ethutil/mnemonic.go:22-29 | Of 64 digits: the 24 words, by their places in the table, three for every eight |
| Mnemonic.DecodeExact | ethutil/mnemonic.go:37-57 | The number of any three words of the table |
| Vectors.DigitsVector | ethutil/mnemonic_test.go:34-40 | The number of "c61d43dc" |
| Vectors.MnemonicVector | ethutil/mnemonic_test.go:7-65 | The places of its words, and what they join to |
| Mnemonic.JoinedBack | ethutil/mnemonic.go:25-58 | Three words tell every number below 2^32, as 1626^3 exceeds it |
| Mnemonic.NegativeHasNoWords | ethutil/mnemonic.go:23-28 | A chunk with a minus sign and a number other than zero has no words |
| Mnemonic.MnemonicRoundTrip | ethutil/mnemonic.go:18-60 | A string comes back if and only if it is empty or 64 lower-case hexadecimal digits |

## Left out

- PatriciaTree.DeleteCanonical: of the deletion that is meant; the code does that one exactly when DeletionRight says.
- PatriciaTree.LookupDelete: likewise; what the code's deletion answers is DeletedExact.
- TrieTheorems.RunHolds: of the deletions that are meant; the code's runs are RunRightExactly and RunAnswersExactly.
- TrieTheorems.HistoryIndependence: likewise; for the code's roots RootsCompareContents.
- CodedTree.PlaceIsInsert: without the puts; InsertedFits and InsertedAnswers have them.
- CodedTree.RemoveExact: without the puts; DeletedFits and DeletedExact have them.
- SharedAnswers.InsertedAnswers: not on a tree that hides keys already, where a put of a node that is written alike may show some of them or hide others.
- SharedAnswers.DeletedExact: likewise.
- TrieRuns.UndoAfterRun: on a trie that hides keys Undo may also answer some of those; UndoShows is such a run.
- TrieRuns.OpenAgain: not for a root that is a list and holds a single zero byte, which would come back as another root.
- Transactions.NoNonceTwice: one direction; a nonce that falls back need not be used again before the list ends. NonceGrows is exact.
- GasMachine.Step: EXP, XOR, BYTE, and a word that depends on memory, storage, input or the world state, may be any, and such an opcode, or a push that goes beyond the script, may panic or not; likewise which account a CALL finds and which script it or a CREATE runs.
- GasMachine.EvalScript: with a negative sum or request it may run on for ever; then what is promised is what holds after any number of steps.
- Chain.BlockChain.Process: whether a block checks out is any function of the current block, its parent and itself; the transactions, proof of work and times behind it are not in the model of the chain.
- RlpForms.EncodeSpells: not for length fields of 3, 5, 6 or 7 bytes, which are not read as they are written.
- Balances.TransferExact: of accounts that were stored, so that amounts are not negative and nonces are readable; NonceGrows and SettledTotal are without that.
- StateRuns.PerformAll: behind a Reset of copied tries nothing is told any more.
- States.State: a trie is the map that TrieObject proves it to be, and Undo on a copied trie may leave anything; what one trie's database writes mean for another is StaysReadable. Objects' amount, nonce and code are one record.
- Transactions.ProcessTransaction: message transactions to accounts without code; contract creation and the script run of a recipient with code are not in the list.
- Nonces and block numbers from 2^63 on, where Go's conversions to `int64` wrap, and `float64` rounding of counts above 2^53 (`ethchain/block_chain.go:235`).
- Accounts whose encoding has 65536 bytes or more, whose length field may be misread.
- In `Decode`, reading past the end of a slice but within its capacity; in `GetNode`, string references of 1 to 31 bytes, which no trie of its own making holds; database entries under keys of at most one byte.
- `NewContract` passes a Go string as root, so the first lookup in its storage asks for the empty key; the storage of such a contract starts empty here.
- The memory of the virtual machine, and value moved by CALL, SUICIDE and CREATE: these credit without a matching debit. With a debug hook a run may end without a refund; here there is none.
- Block rewards, gas limits, proof of work, signatures, the manifest, reactor posts and broadcasts.
- `workNode` and `Purge`, `RemoveInvalid`, the deletion loop of `ResetTillBlockHash`, and the diverted mode of a peer, which loop over the wrong things or stop early.
- Locks: every operation is one step.
- `DecodeWithReader`, an older reader that does not match Encode.
