# Verified models of the load-balancer health checker

The repository is a health checker for Kubernetes load balancers. A Go controller drives a
bundled Tengine (nginx 1.16) with an added health-check module. This project models the parts
of it with the strongest invariants and proves what they are for, over all inputs, all
histories and all interleavings.

- Health-check module: the protocol by which worker processes claim, probe and release shared
  peers (`Ownership`), the rise and fall hysteresis (`Hysteresis`), the resumable parser of
  status lines (`StatusLine`), the FastCGI request encoder (`FastCgi`) and what a reload
  carries over (`Reload`).
- nginx core: the red-black tree with a shared sentinel (`Rb*`), the open-file cache
  (`OpenFileCache`), the wildcard hash (`WildcardNames`, `WildcardHash`) and the packed hash
  (`FlatHash`), the pool allocator and its arrays (`Pool`, `PoolArray`), the radix tree
  (`Radix`), IP addresses as text (`Inet`, `InetText`), MD5 (`Md5`, `Md5Block`) and HTTP dates
  (`HttpDate`).
- Controller: how a report of nginx changes the list of down endpoints (`DownList`), and how
  that list moves endpoint addresses (`Endpoints`).

Code that updates fields, arrays or maps in place is a class or a method with a loop here,
proved against functions on values; the laws are lemmas about those functions.

## Where the code falls short, and exactly when

Each of these has a failing input, and a condition on the state and the input before the step
or call that is proved to be necessary and sufficient.

- Ownership: mutual exclusion of probes fails when a peer is taken over while a live worker
  still probes it. The takeover is meant for dead workers, but a fresh peer has access time 0,
  so its first probe can be taken over at once (`FreshPeerIsProbedTwice`,
  `ExclusiveIffNoHarm`), and so can any probe by a worker whose clock lags
  (`LaggingIsOverdue`).
- Open-file cache: an open file that is checked again loses a descriptor, or keeps a stale
  one, when stat reports a replaced file whose old inode is back when it is opened, or a
  directory with the inode number of the open file (`LosesDescriptor`, `OpenCached`,
  `MixedIffNotCalm`).
- FastCGI: the size of the request counts one byte for the length of a key, while the encoder
  writes four for keys over 127 bytes (`LongKeyRunsOver`, `FillsBuffer`).
- Endpoints: the lists that a move accumulates are shared by all subsets, so addresses can be
  duplicated when there are several subsets; and a list that was empty is started anew by
  every address that arrives, so addresses that share an IP can be lost, depending on the
  order of the maps (`TwoSubsets`, `SharedIp`, `ConservedIff`, `SettledIffSecure`).
- Reload: the generation moves at the end of the stream block. An attempt that fails later,
  in another block or in the shared memory, does not take it back, so the next reload inherits
  nothing; an attempt that fails earlier does no harm (`LateFailureForgets`, `KeptIff`).
- Pool: allocations stay in bounds only if the size of the pool is a multiple of 8
  (`UnalignedPool`, `OverrunIff`).
- IP text: the addresses ::255.255.255.255 and ::ffff:255.255.255.255 are printed in a form
  that the parser refuses (`BroadcastIsRefused`, `RoundTrip`).
- Timers: the tree is in the order of the times only while they are less than half the range
  of a word apart (`Wraps`).

## Conventions

- The kernel, the allocator, the clock and the sockets are parameters or steps: `Kernel` in
  `OpenFileCache`, the addresses `p` and `m` in `Pool`, the steps of `Ownership`.
- Words have 64 bits. Wrap-around is written out where it can matter: access times, two-byte
  bucket counters, the byte count of MD5, the unsigned day arithmetic of dates.
- Pools have a size that is a multiple of 8, cache lines have 32, 64 or 128 bytes, and stored
  values are not NULL or NO_VALUE, as the source needs them.
- Names in the wildcard hash consist of characters above the space, so that the sorting order,
  which puts the dot below every other character, agrees with the order of their labels.

## Model

| member | source | states |
|---|---|---|
| `Ownership.ExclusiveIffNoHarm` | tengine-master/ngx_healthcheck_module/ngx_http_upstream_check_module.c:917-1155 | over every run of any number of workers, interleaved at every access to shared memory: "a probe in flight at w implies owner is w" holds in all states of the run if and only if no step of it takes over a peer that a live worker is still probing and no discard handler closes its connection while somebody probes |
| `Ownership.OwnershipSafety` | tengine-master/ngx_healthcheck_module/ngx_http_upstream_check_module.c:917-1155 | in every reachable state a worker has at most one probe in flight on a peer, an armed timeout timer implies a connection, and a live worker that is not exiting and is idle owns only peers that it has a probe in flight on |
| `Ownership.OwnerWrites` | tengine-master/ngx_healthcheck_module/ngx_http_upstream_check_module.c:966-986 | only the claiming worker itself makes w the owner of a peer, and only `clean_event` makes a peer ownerless |
| `Ownership.StepKeeps` | tengine-master/ngx_healthcheck_module/ngx_http_upstream_check_module.c:917-1387 | the protocol invariant (lock held exactly inside the critical section, owner explained by the owner's program counter or timer, probe count equal to probes in flight) is inductive over every step: claim, connect, io, timeout, discard, update, release, exit, death, clock |
| `Ownership.RunKeeps` | tengine-master/ngx_healthcheck_module/ngx_http_upstream_check_module.c:917-1387 | the invariant holds in every state of every run |
| `Ownership.FlightStarts` | tengine-master/ngx_healthcheck_module/ngx_http_upstream_check_module.c:984-1058 | a probe starts only at the unlocked re-read of `owner`, and only when that read returned the worker's own pid |
| `Ownership.FlightPersists` | tengine-master/ngx_healthcheck_module/ngx_http_upstream_check_module.c:984-1058 | no claim or release of one worker ends a probe of another, which is why a takeover breaks mutual exclusion |
| `Ownership.AtMostOneProbe` | tengine-master/ngx_healthcheck_module/ngx_http_upstream_check_module.c:984-1058 | where ownership is exclusive, two workers never probe one peer at the same time |
| `Ownership.HarmBreaks` | tengine-master/ngx_healthcheck_module/ngx_http_upstream_check_module.c:971-1155 | each harmful step by itself makes the recorded owner differ from a worker that probes |
| `Ownership.HarmlessKeeps` | tengine-master/ngx_healthcheck_module/ngx_http_upstream_check_module.c:971-1155 | every other step keeps exclusiveness |
| `Ownership.NoRiskIsExclusive` | tengine-master/ngx_healthcheck_module/ngx_http_upstream_check_module.c:971-1155 | a run without takeovers, and in which no discard handler closes a connection, is exclusive in all its states |
| `Ownership.LaggingIsOverdue` | tengine-master/ngx_healthcheck_module/ngx_http_upstream_check_module.c:951-979 | each worker reads its own clock, and the difference to the last access is unsigned: a worker whose clock lags behind the last access finds the peer overdue for a takeover at once |
| `Ownership.FreshPeerIsProbedTwice` | tengine-master/ngx_healthcheck_module/ngx_http_upstream_check_module.c:951-989 | counterexample to unconditional exclusion, for every check interval below 2^60 milliseconds: a fresh peer has access time 0, so once the clock has passed 16 intervals a run exists that ends with two workers probing one peer |
| `Ownership.SharedRecordIsHysteresis` | tengine-master/ngx_healthcheck_module/ngx_http_upstream_check_module.c:2256-2285 | as long as no step is harmful and no worker dies inside `status_update`, the unlocked writes of all workers together leave exactly the record of the sequential fold over the results, or a prefix of one update of it |
| `Hysteresis.CountersAreTrailingRuns` | tengine-master/ngx_healthcheck_module/ngx_http_upstream_check_module.c:2256-2285 | for every history, the rise and fall counts are the lengths of the trailing runs of successes and failures, and never both nonzero |
| `Hysteresis.DownIsLatestVerdict` | tengine-master/ngx_healthcheck_module/ngx_http_upstream_check_module.c:2256-2285 | for thresholds of at least 1, `down` is the verdict of the latest run that reached its threshold, and `default_down` if none did |
| `Hysteresis.VerdictIsUnique` | tengine-master/ngx_healthcheck_module/ngx_http_upstream_check_module.c:2256-2285 | a history has one verdict only, so the previous row determines `down` |
| `Hysteresis.FlipsAreSeparated` | tengine-master/ngx_healthcheck_module/ngx_http_upstream_check_module.c:2256-2285 | two opposite flips are at least as many results apart as the threshold of the later one |
| `Hysteresis.RunsExclude` | tengine-master/ngx_healthcheck_module/ngx_http_upstream_check_module.c:2256-2285 | a history cannot end in a success and in a failure at once |
| `Hysteresis.FoldMore` | tengine-master/ngx_healthcheck_module/ngx_http_upstream_check_module.c:2256-2285 | one more result updates the record of the history before it |
| `Hysteresis.PeerShm.constructor` | tengine-master/ngx_healthcheck_module/ngx_http_upstream_check_module.c:3797-3823 | a new peer has the record of the empty history |
| `Hysteresis.PeerShm.StatusUpdate` | tengine-master/ngx_healthcheck_module/ngx_http_upstream_check_module.c:2256-2285 | the in-place update keeps the record equal to the fold over the results so far |
| `RbTree.RbTree.Insert` | tengine-master/src/core/ngx_rbtree.c:24-153 | with either insert function, keeps the whole invariant (links and parents agree, keys in order, red rule, equal black heights, black root and sentinel), and the in-order sequence is the old one with the node put in at a place between smaller-or-equal and larger keys; no other key changes; timers must be less than half the range of a word from those that are set |
| `RbTree.RbTree.Delete` | tengine-master/src/core/ngx_rbtree.c:156-320 | keeps the whole invariant, the in-order sequence is the old one without exactly this node, all other keys are unchanged, and the node is left without links and with key 0 |
| `RbTree.RbTree.Next` | tengine-master/src/core/ngx_rbtree.c:383-409 | returns the following element of the in-order sequence, or NULL at the last one |
| `RbTree.RbTree.Min` | tengine-master/src/core/ngx_rbtree.h:73-81 | returns the first node, in order, of a subtree |
| `RbTree.RbTree.constructor` | tengine-master/src/core/ngx_rbtree.h:44-48 | the empty tree satisfies the invariant |
| `RbTree.RbTree.FindSlot` | tengine-master/src/core/ngx_rbtree.c:96-146 | the descent ends at a free child slot whose place in the order fits the key, for plain keys and for timers that wrap around |
| `RbTree.Wraps` | tengine-master/src/core/ngx_rbtree.c:122-146 | the signed difference of two times, less than a full range apart, orders them right if and only if they are less than half the range apart, whether or not one has wrapped around |
| `RbTree.RbTree.FixInsert` | tengine-master/src/core/ngx_rbtree.c:46-92 | turns a tree with at most one red-red violation, at the new node, into a red-black tree with the same keys and order |
| `RbTree.RbTree.FixDelete` | tengine-master/src/core/ngx_rbtree.c:255-319 | turns a tree with one slot that is a black node short into a red-black tree with the same keys and order |
| `RbTree.RbTree.ChooseSubst` | tengine-master/src/core/ngx_rbtree.c:162-183 | the node that leaves its place is the node itself or its in-order successor, and has at most one child |
| `RbTree.RbTree.UnlinkNode` | tengine-master/src/core/ngx_rbtree.c:198-249 | the pointer writes, with their aliasing cases, refine the unlinking of values; the node that was taken out has no links and key 0 |
| `RbReplace.UnlinkSuccessor` | tengine-master/src/core/ngx_rbtree.c:198-249 | unlinking with a successor is splicing the successor out and putting it in the place of the node, also when it is the child of the node |
| `RbReplace.UnlinkSelf` | tengine-master/src/core/ngx_rbtree.c:198-209 | unlinking a node with at most one child is splicing it out |
| `RbTree.RbTree.DetachNode` | tengine-master/src/core/ngx_rbtree.c:198-217 | the writes that take the substitute out of its place |
| `RbTree.RbTree.AdoptNode` | tengine-master/src/core/ngx_rbtree.c:220-243 | the writes that put the substitute into the place of the node |
| `RbTree.RbTree.PassRight` | tengine-master/src/core/ngx_rbtree.c:329-336 | first half of the left rotation: the inner subtree changes its parent |
| `RbTree.RbTree.PassLeft` | tengine-master/src/core/ngx_rbtree.c:359-366 | first half of the right rotation |
| `RbTree.RbTree.RotateLeft` | tengine-master/src/core/ngx_rbtree.c:323-350 | the heap after the pointer writes is the left rotation of the heap before |
| `RbTree.RbTree.RotateRight` | tengine-master/src/core/ngx_rbtree.c:353-380 | the heap after the pointer writes is the right rotation of the heap before |
| `RbHistory.Replay` | tengine-master/src/core/ngx_rbtree.c:24-320 | every legal history of insertions and deletions from the empty tree, on the heap, for plain keys and for timers that wrap around: the keys in the tree and the deleted keys are together the inserted ones, as multisets; the walk along the child links meets the keys in increasing order; no way down is more than twice as long as another, and the depth is logarithmic |
| `RbHistory.Build` | tengine-master/src/core/ngx_rbtree.c:24-320 | the operations one after the other keep the tree equal to what the history says it holds |
| `RbPaths.WalkIsOrder` | tengine-master/src/core/ngx_rbtree.c:383-409 | the order that all other results speak of is the in-order walk along the child links alone |
| `RbPaths.WalkIsSpan` | tengine-master/src/core/ngx_rbtree.c:383-409 | the same for the subtree of every node |
| `RbPaths.PathsAreBalanced` | tengine-master/src/core/ngx_rbtree.c:24-320 | in every red-black tree all ways from the root to the sentinel cross the same number of black nodes, none is more than twice as long as another, and the depth is logarithmic in the number of nodes |
| `RbPaths.SubtreeSize` | tengine-master/src/core/ngx_rbtree.c:24-320 | a subtree of black height h has at least 2^h - 1 nodes |
| `RbPaths.PathBlacks` | tengine-master/src/core/ngx_rbtree.c:24-320 | the black height annotation counts the black nodes of every way down |
| `RbPaths.PathLength` | tengine-master/src/core/ngx_rbtree.c:24-320 | a way down is at most twice as long as its number of black nodes |
| `RbLinks.LeftRotateKeepsLinks` | tengine-master/src/core/ngx_rbtree.c:323-350 | a rotation keeps the in-order sequence and the agreement of child and parent links |
| `RbLinks.RightRotateIsFlipped` | tengine-master/src/core/ngx_rbtree.c:353-380 | a right rotation is the mirror image of a left rotation, although the two look for the child on different sides |
| `RbKeys.LeftRotateKeys` | tengine-master/src/core/ngx_rbtree.c:323-350 | rotations move no key |
| `RbKeys.RightRotateKeys` | tengine-master/src/core/ngx_rbtree.c:353-380 | rotations move no key |
| `RbColor.InsertRecolor` | tengine-master/src/core/ngx_rbtree.c:53-58 | red uncle: the only violation moves to the grandparent |
| `RbColor.InsertInnerLeft` | tengine-master/src/core/ngx_rbtree.c:60-63 | inner child: after the first rotation the violation is at the outer child |
| `RbColor.InsertOuterRight` | tengine-master/src/core/ngx_rbtree.c:85-87 | outer child: repainting and rotating removes the violation and keeps every black height |
| `RbColor.InsertDone` | tengine-master/src/core/ngx_rbtree.c:92-92 | the loop stops at a tree that is red-black once its root is black |
| `RbDelete.DeleteRedSiblingLeft` | tengine-master/src/core/ngx_rbtree.c:262-267 | red sibling: afterwards the sibling is black and the slot is still the only short one |
| `RbDelete.DeleteRecolor` | tengine-master/src/core/ngx_rbtree.c:269-272 | black sibling with black children: the short slot moves to the parent |
| `RbDelete.DeleteInnerRight` | tengine-master/src/core/ngx_rbtree.c:303-308 | red inner nephew: afterwards the outer nephew is red |
| `RbDelete.DeleteOuterLeft` | tengine-master/src/core/ngx_rbtree.c:281-286 | red outer nephew: the last rotation gives a red-black tree |
| `RbDelete.DeleteDone` | tengine-master/src/core/ngx_rbtree.c:319-319 | painting the node at which the loop ends makes the tree red-black |
| `RbTree.InnerRightStep` | tengine-master/src/core/ngx_rbtree.c:80-83 | mirror image of the inner case: the red parent is a right child, and after the right rotation the violation is at the outer child, with the same keys |
| `RbMirror.InsertOuterLeft` | tengine-master/src/core/ngx_rbtree.c:65-67 | mirror image of the outer case |
| `RbMirror.DeleteRedSiblingRight` | tengine-master/src/core/ngx_rbtree.c:291-296 | mirror image of the red sibling |
| `RbMirror.DeleteInnerLeft` | tengine-master/src/core/ngx_rbtree.c:274-279 | mirror image of the red inner nephew |
| `RbMirror.DeleteOuterRight` | tengine-master/src/core/ngx_rbtree.c:310-315 | mirror image of the red outer nephew |
| `RbEdit.AddLeafInserting` | tengine-master/src/core/ngx_rbtree.c:96-118 | a red leaf leaves at most one violation, and enters the order at the slot that was found |
| `RbEdit.SpliceRed` | tengine-master/src/core/ngx_rbtree.c:198-253 | splicing out a red node keeps the tree red-black |
| `RbEdit.SpliceBlack` | tengine-master/src/core/ngx_rbtree.c:198-253 | splicing out a black node leaves exactly its slot one black node short |
| `RbEdit.SpliceTop` | tengine-master/src/core/ngx_rbtree.c:185-196 | splicing out a root with at most one child gives a red-black tree |
| `RbReplace.ReplaceRedBlack` | tengine-master/src/core/ngx_rbtree.c:211-243 | the substitute takes place, color and order position of the deleted node, and the tree stays red-black |
| `RbReplace.UnlinkChosen` | tengine-master/src/core/ngx_rbtree.c:156-253 | choosing and unlinking removes exactly one element of the order and leaves a red-black tree, or one short slot |
| `OpenFileCache.OpenFileCache.OpenCached` | tengine-master/src/core/ngx_open_file_cache.c:143-486 | for every state, request and behaviour of the kernel: every open descriptor belongs to exactly one live entry afterwards if and only if the answers of the kernel about an open file that is checked again are consistent; then tree, queue and `current` agree, `current` is at most `max`, reference counts are exact, error and directory entries have no descriptor, descriptors held by requests stay open and unchanged; if instead a file that stat saw replaced is back when it is opened, its first descriptor stays open and no entry has it; and in every case the request fails or succeeds, with the file, directory or error that the cache or the kernel has for it, exactly as the source decides, and the cache then holds that answer at the head of its queue |
| `OpenFileCache.LosesDescriptor` | tengine-master/src/core/ngx_open_file_cache.c:273-342 | the failing run: a file is opened as descriptor 3, stat then reports another inode, and open returns the old file again; afterwards descriptor 3 is open and no entry has it |
| `OpenFileCache.OneFile` | tengine-master/src/core/ngx_open_file_cache.c:143-450 | a run that opens one file leaves one entry with its descriptor and inode |
| `OpenFileCache.OpenFileCache.Release` | tengine-master/src/core/ngx_open_file_cache.c:1017-1028 | a request gives back exactly its own reference; descriptors still held stay open, and the last reference to an entry that left the cache closes its descriptor and frees it |
| `OpenFileCache.OpenFileCache.Expire` | tengine-master/src/core/ngx_open_file_cache.c:1094-1142 | removes from the end of the queue at most two entries that were inactive for too long, plus one by force when asked to; what requests hold stays open |
| `OpenFileCache.OpenFileCache.CloseCached` | tengine-master/src/core/ngx_open_file_cache.c:1031-1074 | closes the descriptor and frees the entry exactly when nobody holds it and it is out of the cache; a cached entry moves to the head and keeps its descriptor if it is used enough or held |
| `OpenFileCache.OpenFileCache.Evict` | tengine-master/src/core/ngx_open_file_cache.c:1116-1140 | the last entry leaves tree and queue, and is freed at once only if no request holds it |
| `OpenFileCache.OpenFileCache.Retest` | tengine-master/src/core/ngx_open_file_cache.c:273-350 | the exact condition for one old entry: leak-free if and only if the kernel does not show the same file twice under two answers |
| `OpenFileCache.OpenFileCache.Consult` | tengine-master/src/core/ngx_open_file_cache.c:217-350 | which of the three branches answers for a known name |
| `OpenFileCache.OpenFileCache.Confirm` | tengine-master/src/core/ngx_open_file_cache.c:295-450 | the reply after a check that succeeded, with the direct I/O setting of the same file kept |
| `OpenFileCache.OpenFileCache.GiveUp` | tengine-master/src/core/ngx_open_file_cache.c:291-292 | a check that failed takes the name out of the cache, and no descriptor that is held is closed |
| `OpenFileCache.OpenFileCache.GiveBack` | tengine-master/src/core/ngx_open_file_cache.c:1017-1074 | one reference less, and nothing is left of an entry that nobody needs |
| `OpenFileCache.OpenFileCache.Renew` | tengine-master/src/core/ngx_open_file_cache.c:295-450 | keeps, replaces or orphans the entry so that held descriptors survive |
| `OpenFileCache.OpenFileCache.Revisit` | tengine-master/src/core/ngx_open_file_cache.c:211-350 | dispatch for a known name, with the same accounting |
| `OpenFileCache.OpenFileCache.Reuse` | tengine-master/src/core/ngx_open_file_cache.c:230-268 | an entry that is fresh enough answers without system calls, and the request gets one reference |
| `OpenFileCache.OpenFileCache.Reopen` | tengine-master/src/core/ngx_open_file_cache.c:217-228 | an entry without a descriptor gets the new one |
| `OpenFileCache.OpenFileCache.OpenNew` | tengine-master/src/core/ngx_open_file_cache.c:352-450 | an unknown name gets a new entry that owns the new descriptor, also when memory runs out |
| `OpenFileCache.OpenFileCache.Create` | tengine-master/src/core/ngx_open_file_cache.c:360-450 | room is made first, so that the number of entries never exceeds `max` |
| `OpenFileCache.OpenFileCache.MakeRoom` | tengine-master/src/core/ngx_open_file_cache.c:362-364 | forced expiry frees a place while held descriptors stay open |
| `OpenFileCache.OpenFileCache.FailEntry` | tengine-master/src/core/ngx_open_file_cache.c:453-476 | a failed entry leaves the cache; its descriptor is closed unless it is held |
| `OpenFileCache.OpenFileCache.OpenAndStat` | tengine-master/src/core/ngx_open_file_cache.c:839-945 | which descriptor is kept, opened or closed for every combination of answers of stat, open and fstat |
| `OpenFileCache.OpenFileCache.Destroy` | tengine-master/src/core/ngx_open_file_cache.c:89-140 | empties tree, queue and count |
| `OpenFileCache.OpenFileCache.constructor` | tengine-master/src/core/ngx_open_file_cache.c:57-85 | the empty cache satisfies the invariant |
| `OpenFileCache.OpenFileCache.NothingLeft` | tengine-master/src/core/ngx_open_file_cache.c:89-140 | an empty cache without references has no open descriptor and no live entry: every one was closed and freed |
| `OpenFileCache.OpenFileCache.HeldOpen` | tengine-master/src/core/ngx_open_file_cache.c:430-450 | what a request holds is open |
| `OpenFileCache.OpenFileCache.ValidAccounted` | tengine-master/src/core/ngx_open_file_cache.c:143-486 | the invariant implies that every open descriptor has exactly one owner |
| `OpenFileCache.MixedIffNotCalm` | tengine-master/src/core/ngx_open_file_cache.c:295-342 | the code mistakes one file for another exactly when a directory has the inode number of the open file, or a file that stat saw replaced is back when it is opened |
| `WildcardNames.Search` | tengine-master/src/core/ngx_hash.c:52-606 | building the table from the sorted names and searching it returns the value of the most specific wildcard that covers the name, and nothing if none does, for every name |
| `WildcardNames.AnswerIsMostSpecific` | tengine-master/src/core/ngx_hash.c:52-143 | an answer in terms of reversed labels is the most specific suffix match in terms of the names themselves |
| `WildcardNames.SortedIsProper` | tengine-master/src/core/ngx_hash.c:464-606 | sorting what the collection of names produced gives the order and the freedom from conflicts that the construction relies on |
| `WildcardNames.CoversIsMatch` | tengine-master/src/core/ngx_hash.c:52-143 | a wildcard covers a name if and only if its labels are a prefix of the reversed labels of the name |
| `WildcardNames.PrefixIsSuffix` | tengine-master/src/core/ngx_hash.c:52-143 | a prefix of the reversed labels is a suffix of the name at a dot |
| `WildcardNames.ReversedParse` | tengine-master/src/core/ngx_hash.c:882-914 | the stored form of a suffix parses back to its labels and its kind |
| `WildcardNames.Convert` | tengine-master/src/core/ngx_hash.c:894-914 | the in-place conversion yields the labels in reverse order |
| `WildcardNames.Scan` | tengine-master/src/core/ngx_hash.c:732-749 | a name is refused if and only if it has two stars, an empty label or a NUL |
| `WildcardNames.KeysArrays.AddHead` | tengine-master/src/core/ngx_hash.c:831-985 | a head wildcard is added exactly when neither its suffix nor, without a star, the exact name is there already |
| `WildcardNames.KeysArrays.AddKey` | tengine-master/src/core/ngx_hash.c:712-988 | for every name: refused if malformed, busy if it conflicts, otherwise added to exactly one of the three collections, which stay free of conflicts |
| `WildcardNames.KeysArrays.constructor` | tengine-master/src/core/ngx_hash.c:657-709 | the empty collections satisfy the invariant |
| `WildcardHash.Init` | tengine-master/src/core/ngx_hash.c:464-606 | the recursive construction from sorted names answers every query with the longest match |
| `WildcardHash.FindHead` | tengine-master/src/core/ngx_hash.c:52-143 | the walk from the last label is the lookup of the reversed labels in the table |
| `WildcardHash.Collect` | tengine-master/src/core/ngx_hash.c:526-571 | the group of one label is maximal, and the names for the next level are exactly its remainders |
| `WildcardHash.ScanLabel` | tengine-master/src/core/ngx_hash.c:496-503 | the length of the first label and whether a dot follows |
| `WildcardHash.Contiguous` | tengine-master/src/core/ngx_hash.c:489-571 | in the order of `ngx_dns_strcmp` names with one first label stand together |
| `WildcardHash.GroupAnswers` | tengine-master/src/core/ngx_hash.c:573-595 | a slot (value, or sub-table with a default value, and the tag) answers for the whole group |
| `WildcardHash.NextsProper` | tengine-master/src/core/ngx_hash.c:545-580 | the next level is again sorted and free of conflicts |
| `WildcardHash.LevelStep` | tengine-master/src/core/ngx_hash.c:489-596 | one more group extends what the level answers |
| `FlatHash.Find` | tengine-master/src/core/ngx_hash.c:12-49 | on a built table: returns the first entry with the name in its bucket; every read stays inside the block, every step lands on an element start, and the walk ends at the terminator |
| `FlatHash.FindsFirst` | tengine-master/src/core/ngx_hash.c:12-49 | when the hash depends on the name alone, that is the first entry with the name overall |
| `FlatHash.Init` | tengine-master/src/core/ngx_hash.c:251-461 | succeeds if and only if there is a table size and every name fits into a bucket; the result is a built table of the chosen size |
| `FlatHash.Lay` | tengine-master/src/core/ngx_hash.c:332-455 | counting, placing, filling and terminating give a built table |
| `FlatHash.FindSize` | tengine-master/src/core/ngx_hash.c:293-330 | the first size that passes, or the largest one |
| `FlatHash.SizePasses` | tengine-master/src/core/ngx_hash.c:295-321 | the test with two-byte counters, wrap-around included |
| `FlatHash.PassesMeans` | tengine-master/src/core/ngx_hash.c:295-321 | for bucket sizes up to 32768 the wrapping test means that no bucket is too full |
| `FlatHash.PassesNoWrap` | tengine-master/src/core/ngx_hash.c:334-365 | and then no later sum wraps either |
| `FlatHash.SmallBuckets` | tengine-master/src/core/ngx_hash.c:251-332 | so a successful search with such a bucket size is enough to build |
| `FlatHash.Count` | tengine-master/src/core/ngx_hash.c:334-345 | the bytes that every bucket needs |
| `FlatHash.Measure` | tengine-master/src/core/ngx_hash.c:347-365 | bucket sizes rounded to cache lines, and their sum |
| `FlatHash.PlaceBuckets` | tengine-master/src/core/ngx_hash.c:386-393 | buckets follow each other, empty ones are NULL |
| `FlatHash.Fill` | tengine-master/src/core/ngx_hash.c:399-413 | every element is at its place with value, length and lower-cased name |
| `FlatHash.Terminate` | tengine-master/src/core/ngx_hash.c:415-424 | the terminators destroy no element |
| `FlatHash.PutElt` | tengine-master/src/core/ngx_hash.c:405-411 | writes one element and nothing else |
| `FlatHash.ElementsApart` | tengine-master/src/core/ngx_hash.c:399-413 | two elements never overlap, in one bucket or in two |
| `FlatHash.StepOver` | tengine-master/src/core/ngx_hash.c:41-46 | aligning the end of an element gives the start of the next |
| `Pool.OverrunIff` | tengine-master/src/core/ngx_palloc.c:156-167 | the size test, in unsigned arithmetic, lets some request through that does not fit into the block, if and only if the size of the pool is not a multiple of 8 |
| `Pool.UnalignedPool` | tengine-master/src/core/ngx_palloc.c:156-167 | a failing input: a pool of 100 bytes |
| `Pool.AlignedSize` | tengine-master/src/core/ngx_palloc.c:156-167 | no aligned pointer lies past the end of a block if and only if the size of the pool is a multiple of 8 |
| `Pool.Pool.constructor` | tengine-master/src/core/ngx_palloc.c:18-43 | an empty pool satisfies the invariant: live regions in bounds, pairwise disjoint and apart from all large allocations, list nodes inside live regions, one chunk per block |
| `Pool.Pool.Palloc` | tengine-master/src/core/ngx_palloc.c:122-132 | keeps the invariant and every live region; a small request gets a new aligned region disjoint from all others, a large one its own chunk |
| `Pool.Pool.Pnalloc` | tengine-master/src/core/ngx_palloc.c:135-145 | the same without alignment |
| `Pool.Pool.AllocSmall` | tengine-master/src/core/ngx_palloc.c:148-174 | walks the blocks without ever giving out bytes twice |
| `Pool.Pool.AllocBlock` | tengine-master/src/core/ngx_palloc.c:177-210 | a new block keeps the regions of the old ones |
| `Pool.Pool.CountFailures` | tengine-master/src/core/ngx_palloc.c:201-205 | failure counts move `current` only |
| `Pool.Pool.AllocLarge` | tengine-master/src/core/ngx_palloc.c:213-249 | the allocation is listed, or freed again when there is no memory for its node |
| `Pool.Pool.PushLarge` | tengine-master/src/core/ngx_palloc.c:238-248 | a new list node is itself a live region |
| `Pool.Pool.Pmemalign` | tengine-master/src/core/ngx_palloc.c:252-274 | keeps the invariant and lists the chunk |
| `Pool.Pool.Pfree` | tengine-master/src/core/ngx_palloc.c:277-294 | succeeds if and only if the pointer is a listed large allocation, and frees exactly it |
| `Pool.Pool.FreeLarge` | tengine-master/src/core/ngx_palloc.c:83-87 | frees every listed allocation, each once |
| `Pool.Pool.Reset` | tengine-master/src/core/ngx_palloc.c:99-119 | no live region and no large allocation is left, and the blocks stay |
| `Pool.Pool.Destroy` | tengine-master/src/core/ngx_palloc.c:46-96 | everything that was allocated is freed, each chunk once |
| `Pool.TakenKeeps` | tengine-master/src/core/ngx_palloc.c:148-174 | taking free bytes keeps the invariant |
| `Pool.GrownKeeps` | tengine-master/src/core/ngx_palloc.c:177-210 | adding a block keeps the invariant |
| `Pool.AttachedKeeps` | tengine-master/src/core/ngx_palloc.c:227-236 | reusing an empty list node keeps the invariant |
| `Pool.FreedKeeps` | tengine-master/src/core/ngx_palloc.c:277-294 | freeing a large allocation keeps the invariant |
| `Pool.NodeKeeps` | tengine-master/src/core/ngx_palloc.c:238-248 | a list node in a live region keeps the invariant |
| `Pool.CutKeeps` | tengine-master/src/core/ngx_array.c:37-43 | giving back the last region of the first block keeps the invariant |
| `Pool.StretchedKeeps` | tengine-master/src/core/ngx_array.c:62-71 | growing the last region of the first block keeps the invariant |
| `PoolArray.Array.Push` | tengine-master/src/core/ngx_array.c:47-91 | room for one more element; the elements before it are unchanged whether the array grew in place or moved; no other live memory changes |
| `PoolArray.Array.PushN` | tengine-master/src/core/ngx_array.c:94-141 | the same for n elements |
| `PoolArray.Array.Grow` | tengine-master/src/core/ngx_array.c:54-85 | in place exactly in the free tail, otherwise by moving; contents are kept |
| `PoolArray.Array.Stretch` | tengine-master/src/core/ngx_array.c:62-71 | growth in place keeps every other region |
| `PoolArray.Array.Move` | tengine-master/src/core/ngx_array.c:73-84 | the copy goes to memory disjoint from the source |
| `PoolArray.Array.Destroy` | tengine-master/src/core/ngx_array.c:30-44 | gives back only the memory of the array and of its header |
| `PoolArray.Array.constructor` | tengine-master/src/core/ngx_array.h:31-50 | an array with room for n elements |
| `PoolArray.HoldsApart` | tengine-master/src/core/ngx_array.c:30-141 | two arrays of one pool never overlap |
| `PoolArray.TopIsSmall` | tengine-master/src/core/ngx_array.c:62-71 | an array that ends where the free tail begins is a small region, never a large allocation |
| `PoolArray.CopyIs` | tengine-master/src/core/ngx_array.c:81-82 | what the copy writes, byte by byte |
| `Radix.RadixTree.Find` | tengine-master/src/core/ngx_radix_tree.c:236-263 | for every history of inserts and deletes, returns the value of the longest stored prefix of the key, or NO_VALUE |
| `Radix.RadixTree.Insert` | tengine-master/src/core/ngx_radix_tree.c:108-170 | busy if and only if the prefix is stored; otherwise the map of prefixes gains exactly this entry |
| `Radix.RadixTree.Delete` | tengine-master/src/core/ngx_radix_tree.c:173-233 | succeeds if and only if the prefix is stored; the map loses exactly this entry |
| `Radix.RadixTree.Walk` | tengine-master/src/core/ngx_radix_tree.c:115-134 | how far the path of a key goes in the tree |
| `Radix.RadixTree.Extend` | tengine-master/src/core/ngx_radix_tree.c:145-169 | the missing part of the path is built from nodes that were in use nowhere |
| `Radix.RadixTree.Seek` | tengine-master/src/core/ngx_radix_tree.c:179-191 | finds the node of a prefix if and only if it is in the tree |
| `Radix.RadixTree.Prune` | tengine-master/src/core/ngx_radix_tree.c:206-230 | removes every childless node without a value, and no entry |
| `Radix.RadixTree.Unlink` | tengine-master/src/core/ngx_radix_tree.c:206-217 | a node goes from the tree to the free list |
| `Radix.RadixTree.Alloc` | tengine-master/src/core/ngx_radix_tree.c:463-488 | a node of the free list or new memory, never one that is in the tree |
| `Radix.RadixTree.constructor` | tengine-master/src/core/ngx_radix_tree.c:15-43 | the empty tree |
| `Radix.AddedKeeps` | tengine-master/src/core/ngx_radix_tree.c:145-167 | adding a child keeps tree and free list disjoint and every parent link right |
| `Radix.ValuedKeeps` | tengine-master/src/core/ngx_radix_tree.c:136-143 | setting a value keeps the invariant |
| `Radix.RemovedKeeps` | tengine-master/src/core/ngx_radix_tree.c:206-217 | removing a childless node keeps the invariant |
| `Radix.Absent` | tengine-master/src/core/ngx_radix_tree.c:120-135 | a path that has left the tree does not come back |
| `Radix.UptoNext` | tengine-master/src/core/ngx_radix_tree.c:247-260 | one step of the search knows the best entry so far |
| `Radix.UptoEnd` | tengine-master/src/core/ngx_radix_tree.c:247-262 | and where the path ends it knows the longest one |
| `InetText.RoundTrip` | tengine-master/src/core/ngx_inet.c:64-369 | for every 16-byte address, parsing what was printed gives the address back, except exactly for ::255.255.255.255 and ::ffff:255.255.255.255, which are refused |
| `InetText.BroadcastIff` | tengine-master/src/core/ngx_inet.c:307-367 | the condition on the bytes: ten zeros, then two zeros or two 255, then four 255, is the mixed form with that dotted tail |
| `InetText.BroadcastIsRefused` | tengine-master/src/core/ngx_inet.c:64-369 | a failing input: the text of ::ffff:255.255.255.255 is refused |
| `InetText.Copy` | tengine-master/src/core/ngx_inet.c:64-369 | the same for the two loops of the source |
| `InetText.PlainBack` | tengine-master/src/core/ngx_inet.c:295-369 | addresses printed in groups come back, wherever the zero run is |
| `InetText.MixedBack` | tengine-master/src/core/ngx_inet.c:337-367 | addresses printed with a dotted tail come back, or are refused exactly for that tail |
| `InetText.Ntop` | tengine-master/src/core/ngx_inet.c:295-369 | the printed text, or nothing if the buffer has fewer than 45 bytes |
| `InetText.PrintFits` | tengine-master/src/core/ngx_inet.c:295-369 | no text is longer than 39 characters, so the buffer of 45 never overflows |
| `InetText.FindRun` | tengine-master/src/core/ngx_inet.c:307-334 | finds the run of zero words that is compressed |
| `InetText.LongestRun` | tengine-master/src/core/ngx_inet.c:307-334 | no run of at least two zero words is longer than the one chosen |
| `InetText.RunIsZero` | tengine-master/src/core/ngx_inet.c:307-334 | the chosen words are zero, and at least two |
| `InetText.PrintGroups` | tengine-master/src/core/ngx_inet.c:349-362 | the groups around the compressed run |
| `Inet.Inet6Addr` | tengine-master/src/core/ngx_inet.c:64-177 | accepts exactly the texts of the reference parser, and leaves exactly their bytes in the buffer |
| `Inet.InetAddr` | tengine-master/src/core/ngx_inet.c:19-59 | the four octets of a dotted text, or INADDR_NONE |
| `Inet.Spread` | tengine-master/src/core/ngx_inet.c:158-168 | the bytes after the double colon end up at the end, with zeros in between |
| `Inet.MoveUp` | tengine-master/src/core/ngx_inet.c:159-165 | the overlapping move from the back loses no byte |
| `Inet.SpreadIs` | tengine-master/src/core/ngx_inet.c:158-168 | filling in words and filling in bytes agree |
| `Inet.BytesJoin` | tengine-master/src/core/ngx_inet.c:90-100 | words are stored one after the other |
| `Inet.Finish` | tengine-master/src/core/ngx_inet.c:151-176 | the last word and the zero fill |
| `Md5.Context.Final` | tengine-master/src/core/ngx_md5.c:61-111 | for every message and every way of cutting it into updates, the 16 bytes are the digest of RFC 1321: padding with the length modulo 2^64, the compression of every block, and the words with the low byte first; the context is zero afterwards |
| `Md5.Context.Update` | tengine-master/src/core/ngx_md5.c:30-58 | after any number of updates the context stands for exactly the bytes so far |
| `Md5.Context.constructor` | tengine-master/src/core/ngx_md5.c:18-27 | the initial context stands for the empty message |
| `Md5.Context.Body` | tengine-master/src/core/ngx_md5.c:169-283 | compresses every block of its input in order, as RFC 1321 does |
| `Md5Block.Transform` | tengine-master/src/core/ngx_md5.c:186-271 | the 64 unrolled steps, with registers that change roles, are the 64 steps of section 3.4 of RFC 1321 with its index, shift and table functions |
| `Md5Block.Round1` | tengine-master/src/core/ngx_md5.c:192-209 | the first 16 steps |
| `Md5Block.Round2` | tengine-master/src/core/ngx_md5.c:211-228 | the next 16 steps |
| `Md5Block.Round3` | tengine-master/src/core/ngx_md5.c:230-247 | the next 16 steps |
| `Md5Block.Round4` | tengine-master/src/core/ngx_md5.c:249-266 | the last 16 steps |
| `Md5Block.Four` | tengine-master/src/core/ngx_md5.c:131-134 | after four steps the registers are back in their places |
| `Md5Block.Choose` | tengine-master/src/core/ngx_md5.c:122-122 | the rewritten first round function is F of the standard |
| `Md5Block.Select` | tengine-master/src/core/ngx_md5.c:123-123 | the rewritten second round function is G of the standard |
| `Md5.Context.Pad` | tengine-master/src/core/ngx_md5.c:66-91 | both ways to pad give the padded message of sections 3.1 and 3.2 of RFC 1321 |
| `Md5.Context.Write` | tengine-master/src/core/ngx_md5.c:93-108 | the digest is the four words, low bytes first |
| `Md5.ReadBack` | tengine-master/src/core/ngx_md5.c:93-157 | words are written as they are read |
| `Md5.Context.Complete` | tengine-master/src/core/ngx_md5.c:38-50 | filling up the buffer compresses it once |
| `Md5.Context.Rest` | tengine-master/src/core/ngx_md5.c:52-57 | whole blocks are compressed from the input, the remainder is kept |
| `Md5.Context.Finish` | tengine-master/src/core/ngx_md5.c:79-91 | the last block holds the rest, zeros and the length |
| `Md5.FoldJoin` | tengine-master/src/core/ngx_md5.c:169-283 | folding over a concatenation of blocks is folding twice |
| `Md5.PaddedIs` | tengine-master/src/core/ngx_md5.c:66-91 | both padding branches give the padding of the standard |
| `Md5.Counted` | tengine-master/src/core/ngx_md5.c:35-36 | the wrapping byte counter still gives the position in the buffer |
| `StatusLine.AnyPieces` | tengine-master/ngx_healthcheck_module/ngx_healthcheck_common.c:50-271 | for every response and every way of cutting it, verdict, code and body position are those of the whole response |
| `StatusLine.Resume` | tengine-master/ngx_healthcheck_module/ngx_healthcheck_common.c:50-271 | stopping after any byte and going on later makes no difference |
| `StatusLine.HeadAccepted` | tengine-master/ngx_healthcheck_module/ngx_healthcheck_common.c:50-271 | every response head of sections 3 and 3.1.2 of RFC 7230 with major version 1 to 9 is accepted with its code and the position just after the blank line |
| `StatusLine.AcceptedIff` | tengine-master/ngx_healthcheck_module/ngx_healthcheck_common.c:50-271 | the exact language: a response is accepted if and only if it begins with "HTTP/", a version of any number of digits whose first is not 0, three digits that blanks may separate, and an end of line, or a blank or dot and text up to a bare LF or an empty line, where text goes on over every CR LF that no CR follows |
| `StatusLine.LegalAccepted` | tengine-master/ngx_healthcheck_module/ngx_healthcheck_common.c:50-271 | every such response is accepted, with the number of its three digits and the position just after it |
| `StatusLine.AcceptedLegal` | tengine-master/ngx_healthcheck_module/ngx_healthcheck_common.c:50-271 | every accepted response is of this form |
| `StatusLine.StatusParser.Parse` | tengine-master/ngx_healthcheck_module/ngx_healthcheck_common.c:50-271 | the byte loop computes that transition function from the saved state; an error keeps the saved state and the position, and leaves the digits read so far |
| `StatusLine.StatusParser.constructor` | tengine-master/ngx_healthcheck_module/ngx_healthcheck_common.c:50-60 | a fresh parser |
| `FastCgi.RequestBack` | tengine-master/ngx_healthcheck_module/ngx_http_upstream_check_module.c:3232-3335 | with keys of at most 127 bytes and content of at most 65535 bytes, reading the records as in sections 3.3 and 3.4 of the FastCGI 1.0 specification returns exactly the parameter list, content plus padding is a multiple of 8, and the empty record follows |
| `FastCgi.FillsBuffer` | tengine-master/ngx_healthcheck_module/ngx_http_upstream_check_module.c:3242-3263 | the bytes written fill the buffer exactly if and only if no key is longer than 127 bytes; each longer key runs over by three bytes |
| `FastCgi.LongKeyRunsOver` | tengine-master/ngx_healthcheck_module/ngx_http_upstream_check_module.c:3242-3312 | a failing input: one key of 128 bytes |
| `FastCgi.NumberBack` | tengine-master/ngx_healthcheck_module/ngx_http_upstream_check_module.c:3290-3308 | the four bytes of a length determine it |
| `FastCgi.CreateRequest` | tengine-master/ngx_healthcheck_module/ngx_http_upstream_check_module.c:3232-3335 | the loops write the request and compute the buffer size |
| `FastCgi.ContentSize` | tengine-master/ngx_healthcheck_module/ngx_http_upstream_check_module.c:3242-3248 | the content is as long as computed, plus three bytes for every long key |
| `FastCgi.NoLongKeys` | tengine-master/ngx_healthcheck_module/ngx_http_upstream_check_module.c:3242-3248 | there is no difference exactly when all keys are short |
| `FastCgi.ContentBack` | tengine-master/ngx_healthcheck_module/ngx_http_upstream_check_module.c:3286-3312 | every encoded parameter list can be read back |
| `FastCgi.ParamBack` | tengine-master/ngx_healthcheck_module/ngx_http_upstream_check_module.c:3286-3312 | one parameter can be read back, whatever follows it |
| `FastCgi.SizeBack` | tengine-master/ngx_healthcheck_module/ngx_http_upstream_check_module.c:3290-3308 | both length forms can be read back |
| `FastCgi.RecordBack` | tengine-master/ngx_healthcheck_module/ngx_http_upstream_check_module.c:3266-3320 | a record can be read back |
| `Endpoints.Controller.Reconcile` | controllers/lbhc/lbhc_controller.go:1078-1132 | the cluster afterwards is that of the promotions and then the demotions that the list asks for, in the orders in which the maps were read; in every order each address of a secure subset of single-subset endpoints ends not ready if any of its ports is down, ready if it has ports and all are up, and where it was otherwise, and none is lost or duplicated |
| `Endpoints.SettledIffSecure` | controllers/lbhc/lbhc_controller.go:1078-1320 | the exact condition: every order in which the maps can be read settles the addresses of a subset if and only if in both loops the receiving list is not empty at the start or no two addresses that move share an IP |
| `Endpoints.MovesEnumerate` | controllers/lbhc/lbhc_controller.go:1084-1129 | every order makes exactly the moves that the list asks for |
| `Endpoints.DistinctIsSecure` | controllers/lbhc/lbhc_controller.go:1078-1132 | a subset in which no two addresses share an IP meets that condition |
| `Endpoints.InsecureLoses` | controllers/lbhc/lbhc_controller.go:1078-1320 | without it, an order in which the maps can be read and an address is lost |
| `Endpoints.SecondLoop` | controllers/lbhc/lbhc_controller.go:1078-1132 | the condition of the second loop in terms of the subset before the first one |
| `Endpoints.PromotionsAt` | controllers/lbhc/lbhc_controller.go:1084-1104 | what any sequence of promotions does to endpoints with one subset |
| `Endpoints.DemotionsAt` | controllers/lbhc/lbhc_controller.go:1110-1129 | what any sequence of demotions does to endpoints with one subset |
| `Endpoints.UpsReady` | controllers/lbhc/lbhc_controller.go:1084-1104 | a safe loop moves every address with one of the IPs, and only those |
| `Endpoints.ConservedIff` | controllers/lbhc/lbhc_controller.go:1210-1264 | for any number of subsets, moving an IP keeps the number of every address if and only if no ready address of an earlier subset stays behind when a later subset has ready addresses too, and no subset without not-ready addresses has several ready ones with the IP |
| `Endpoints.OneSubset` | controllers/lbhc/lbhc_controller.go:1210-1264 | with one subset, every address with the IP leaves the ready list and arrives unless it is dropped, and nothing else changes |
| `Endpoints.SharedIp` | controllers/lbhc/lbhc_controller.go:1227-1243 | a failing input: two ready addresses with one IP and no not-ready ones; the first of them is gone afterwards |
| `Endpoints.TwoSubsets` | controllers/lbhc/lbhc_controller.go:1221-1245 | a failing input: two subsets with one ready address each |
| `Endpoints.UncleanDuplicates` | controllers/lbhc/lbhc_controller.go:1221-1245 | where addresses stay behind, some address is duplicated |
| `Endpoints.UnkeptLoses` | controllers/lbhc/lbhc_controller.go:1227-1243 | where an empty list receives several addresses, some address is lost |
| `Endpoints.LostOrExtra` | controllers/lbhc/lbhc_controller.go:1221-1245 | only addresses with the IP are lost, and only others are duplicated, so the two never make up for each other |
| `Endpoints.CleanIsExact` | controllers/lbhc/lbhc_controller.go:1221-1245 | no address is gained where nothing stays behind |
| `Endpoints.KeptIsExact` | controllers/lbhc/lbhc_controller.go:1227-1243 | no address is lost where no empty list receives several |
| `Endpoints.Controller.Demote` | controllers/lbhc/lbhc_controller.go:1210-1264 | moves the addresses with the IP out of the ready list, or reports missing endpoints |
| `Endpoints.Controller.Lower` | controllers/lbhc/lbhc_controller.go:1220-1245 | the loop over the subsets, with its shared accumulator |
| `Endpoints.Controller.Promote` | controllers/lbhc/lbhc_controller.go:1267-1320 | the opposite move |
| `Endpoints.Controller.Raise` | controllers/lbhc/lbhc_controller.go:1277-1301 | the same loop for the opposite move |
| `Endpoints.Controller.Sift` | controllers/lbhc/lbhc_controller.go:1227-1243 | splits a list by IP and appends; a target that was empty before the loop is started anew by every match, so that only the last one stays |
| `Endpoints.Controller.InReady` | controllers/lbhc/lbhc_controller.go:1343-1362 | whether some ready address has the IP |
| `Endpoints.Controller.InNotReady` | controllers/lbhc/lbhc_controller.go:1322-1341 | whether some not-ready address has the IP |
| `Endpoints.Controller.PromoteAll` | controllers/lbhc/lbhc_controller.go:1084-1104 | the moves are those of the list in the order in which its two levels are read |
| `Endpoints.Controller.PromoteService` | controllers/lbhc/lbhc_controller.go:1086-1103 | the moves for one service, in the order of its map; none for a malformed name |
| `Endpoints.Controller.DemoteAll` | controllers/lbhc/lbhc_controller.go:1110-1129 | the moves are those of the list in the order in which its two levels are read |
| `Endpoints.Controller.DemoteService` | controllers/lbhc/lbhc_controller.go:1111-1128 | the moves for one service, in the order of its map; none for a malformed name |
| `DownList.Controller.Event` | controllers/lbhc/lbhc_controller.go:867-981 | after a round every reported rise-0 record of a led service is false, every entry whose ip:port was not recorded is true, no reported service of another leader remains, and all other entries keep their value |
| `DownList.AnyOrder` | controllers/lbhc/lbhc_controller.go:867-981 | the outcome does not depend on the order of the payload |
| `DownList.RoundOf` | controllers/lbhc/lbhc_controller.go:909-981 | noting and recovering together give the round |
| `DownList.Controller.Note` | controllers/lbhc/lbhc_controller.go:909-936 | one record, with the deletion of services led elsewhere |
| `DownList.Controller.NoteAll` | controllers/lbhc/lbhc_controller.go:909-965 | all records of both lists |
| `DownList.Controller.Recover` | controllers/lbhc/lbhc_controller.go:972-981 | exactly the entries that were not recorded go up, in any order of the maps |
| `DownList.Controller.RecoverOne` | controllers/lbhc/lbhc_controller.go:973-980 | the same for one service |
| `HttpDate.OneValue` | tengine-master/src/core/ngx_parse_time.c:14-277 | every date from 1970 has one value, the number of seconds counted with leap years; the first and third form of section 7.1.1.1 of RFC 7231 agree up to the year 9999, all three up to 2069 |
| `HttpDate.GaussCounts` | tengine-master/src/core/ngx_parse_time.c:241-266 | the March-shifted formula equals counting days year by year |
| `HttpDate.MarchFirst` | tengine-master/src/core/ngx_parse_time.c:250-266 | it counts right at every first of March |
| `HttpDate.ParseHttpTime` | tengine-master/src/core/ngx_parse_time.c:14-277 | for every value: the reference result, without any read past the end |
| `HttpDate.ImfBack` | tengine-master/src/core/ngx_parse_time.c:14-240 | a printed date of the first form is read back |
| `HttpDate.ObsoleteBack` | tengine-master/src/core/ngx_parse_time.c:14-240 | a printed date of the second form is read back, two-digit years included |
| `HttpDate.AsctimeBack` | tengine-master/src/core/ngx_parse_time.c:14-240 | a printed date of the third form is read back, one-digit days included |
| `Reload.KeptIff` | tengine-master/ngx_healthcheck_module/ngx_stream_upstream_check_module.c:1769-2094 | over any sequence of reload attempts, removals of the stream block and work in between: a pair of address and upstream in both tables keeps its status if and only if no attempt since the running table was made failed after the counter moved, or its status is that of a new peer anyway |
| `Reload.LateFailureForgets` | tengine-master/ngx_healthcheck_module/ngx_stream_upstream_check_module.c:1769-2094 | two runs: a peer is down, an attempt fails, the next one succeeds; the peer is up if the attempt failed after the counter moved, and still down if it failed before |
| `Reload.Inheritance` | tengine-master/ngx_healthcheck_module/ngx_stream_upstream_check_module.c:1769-2094 | a successful reload clears all owners; it carries all statuses over when no attempt since the table was made failed after the counter moved, and starts every pair anew otherwise |
| `Reload.RunValid` | tengine-master/ngx_healthcheck_module/ngx_stream_upstream_check_module.c:1769-1911 | the generation of the running cycle is the latest one exactly when no attempt since it started failed after the counter moved |
| `Reload.InitZone` | tengine-master/ngx_healthcheck_module/ngx_stream_upstream_check_module.c:1934-2094 | every pair of the new table takes the status of the first entry of the same pair, or a fresh one, and no owner |
| `Reload.FindPeer` | tengine-master/ngx_healthcheck_module/ngx_stream_upstream_check_module.c:2138-2163 | the first entry with the pair |
| `Reload.Nginx.Attempt` | tengine-master/ngx_healthcheck_module/ngx_stream_upstream_check_module.c:1769-2094 | one attempt: it fails before the counter moves, fails after that, or succeeds |
| `Reload.Nginx.constructor` | tengine-master/ngx_healthcheck_module/ngx_stream_upstream_check_module.c:1871-1911 | before the first configuration |

## Left out

- Hysteresis.PeerShm.StatusUpdate: counters do not wrap, because that takes 2^64 probes in a row.
- Ownership.SharedRecordIsHysteresis: one direction only; a harmful step need not disturb the record, depending on the timing of the two updates.
- Ownership: the stream module has the same protocol except that a failed connect returns without a release, so it is not claimed there; probes over UDP, TLS and MySQL differ only in what counts as a result.
- RbTree.RbTree.Delete: says nothing about the parent of the root after the deletion of a root with one child, which the source leaves dangling.
- OpenFileCache.OpenFileCache.OpenCached: vnode events are off and the tree of names is a map; the lookup in the tree by CRC and the path without a cache are not modelled.
- OpenFileCache.OpenFileCache.Destroy: requests that still hold entries when the cache is destroyed are not served any more.
- WildcardHash.Init: a level is the list of its labels; how one level is packed is `FlatHash`, and the tag bits are constructors.
- WildcardNames.KeysArrays.AddKey: tail wildcards are collected, but their lookup repeats the same argument and is not modelled; memory does not run out.
- FlatHash.Init: needs that no two-byte sum wraps for the chosen size; `SmallBuckets` says when that is certain, not exactly when.
- Pool.Pool.Destroy: cleanup handlers are not run by the model.
- PoolArray.Array.PushN: the products of element size and count do not overflow.
- Radix.RadixTree.Insert: memory does not run out, nothing is preallocated, and the variant for 128-bit keys repeats the argument.
- Radix.RadixTree.Delete: deleting the empty prefix needs a root with children, because the source follows the parent of the root otherwise.
- StatusLine.StatusParser.Parse: growing the receive buffer in the middle of a head is not composed with it.
- FastCgi.CreateRequest: the bytes of the last header are not written by the source and are arbitrary here; the parser of FastCGI responses is not modelled.
- Endpoints.Controller.Reconcile: conflicts and retries of the API server, and what others write during the pause between the two loops, are not modelled; for endpoints with several subsets conservation is stated for single moves only, by `ConservedIff`.
- DownList.Controller.Event: who leads a service is fixed during a round; the comparison that decides whether to write the list back, and the branch for an empty report, are not modelled.
- HttpDate.ParseHttpTime: the check for 32-bit time values is not modelled.
- Kubernetes client calls, leader election, the generation of nginx configuration, status pages, and the rest of nginx: input and output, or shallow.
