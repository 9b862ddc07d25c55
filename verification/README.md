# Verified models of the data structures and stream protocols behind the proxy

Dafny models, with proofs, of the parts of this repository whose correctness is least obvious from reading
them: the reference-counted BDD cache under libipset and everything built on it (insertion, iteration, saving
and loading), the framing of encrypted TCP streams, the back-pressured pipe between two connections, the
intrusive hash table and the LRU cache on it, the two-pass JSON parser and its stackless deallocation, and the
base64 and quoting codecs.

Code that works step by step is modelled as classes and methods with the same branches. Each method is proved
against a function on values (`Ite`, `PathsFrom`, `Expanded`, `Feed`, `Drain`, `Inserted`, `Split`, `Run`), and what
the code promises is proved about that function. Fields that the source keeps in C memory are fields here; what a
proof needs beside them (the graph of a cache, the order of a list, the frames of an iterator) is in ghost fields.

How the files fit together:

- BDDs: `DecisionTree` (trees and functions), `NodeGraph` (the shared graph and the tree of an id), `CacheState`
  (invariant and elementary steps), `NodeCache` (the class), `CacheRuns` (whole runs), `Reachable`.
- IP sets: `Paths`, `Assignments`, `BddIterator`, `Bits`, `Expansion`, `AddressBlocks`, `Summaries` (networks
  are the greatest ones), `SetIterator`, `IpSet`.
- Files of IP sets: `FileFormat`, `SavedOrder`, `LoadSteps` (loading record by record), `SaveLoad`, `RoundTrip`.
- Streams: `Framing` (what both ciphers share), `AeadFraming`, `AeadRoundTrip`, `AeadChunks` and `AeadReplay`,
  `StreamFraming`, `StreamRoundTrip` and `StreamReplay`, `Pipe`.
- Tables: `PowersOfTwo`, `HashTable`, `Recency` (lists), `LruCache`.
- JSON: `JsonSteps` (one turn), `JsonFirstPass`, `JsonPastEnd`, `JsonMeasure` and `JsonMemory` (lengths and sizes),
  `JsonTwoPasses`, `JsonLongObject`, `JsonParser` (the loop), `JsonFree`; the accepted texts: `JsonNumbers`,
  `JsonGrammar`, `JsonLanguage`, `JsonDeviations`; and the tree of a text: `JsonTree`, `JsonBuild`, `JsonOutline`.
- Text: `Base64`, `Quoting`. Shared: `Octets`, `Sequences`, `Wrappers`.

## Findings

Where the code does not do what its comments or its callers expect, the model follows the code, and lemmas say exactly
when it happens.

- Loading under-counts references. `ipset_node_cache_nonterminal` takes over one reference to each child, but the
  loader (read.c:151-295) owns only one to each node, however many parents share it. Loading what was saved gives right
  counts if and only if no two nonterminals of the saved BDD have a nonterminal child in common
  (`RoundTrip.SaveThenLoad`); loading three nodes with a shared child gives wrong ones (`RoundTrip.LoadShared`).
- The loader relies on a guarantee of the format that it does not check (read.c:236-239). It keeps the cache intact
  exactly as long as each record makes a new node that tests its variable before its children do, or gives back
  references that leave a count above zero (`SaveLoad.Load`, `LoadSteps.FormatLoads`). A record with two equal children,
  a repeated record with a nonterminal child, and one with variables out of order are files that damage the cache
  (`LoadSteps.RedundantDamages`, `LoadSteps.RepeatedDamages`, `LoadSteps.UnorderedDamages`). The damage is a node out of
  order or with a child that is not live, or the last reference to a node in use (`CacheState.UnsafeBreaks`,
  `CacheState.UnsafeReleases`).
- Id 0 both reports a load error and is the id of nonterminal 0. A successful load returns it if and only if the
  file has exactly one nonterminal (`RoundTrip.ErrorWordAmbiguous`, `RoundTrip.OneNonterminalLooksLikeError`).
- The file format has one byte for a variable. No loadable file gives a BDD with a variable above 255
  (`RoundTrip.OnlyByteVariables`), so a BDD with larger ones does not survive a save, and the others do
  (`RoundTrip.SaveThenLoad`). IP sets have at most 129 variables.
- The LRU cache is documented to hold max_entries entries (cache.h:53). It keeps one less, and with max_entries 1
  it drops an entry as it is inserted (`Recency.RunKeeps`, `Recency.InsertKept`).
- The length check before the rest of true, false and null is one too weak (json.c:596, 612 and 627). A pass reads the
  byte after the text if and only if the text ends in "tru", "fals" or "nul" where a value may start
  (`JsonPastEnd.PastEndByText`, `JsonPastEnd.CutLiteralRead`).
- The size of the entries of an object is kept in an int (json.c:107 and 138). Up to 89478485 members it is right. With
  more the second pass is refused memory, or writes beyond what it has been given, according to which comes first
  (`JsonTwoPasses.TwoPassesAgree`). A text `{"":0,...,"":0}` is refused memory for 89478486 and for 171798691 members,
  and overruns it for 171798692; for 178956971 members the size is cut to 8 bytes (`JsonLongObject.LongObject`,
  `JsonLongObject.TooLongObjects`).
- The parser accepts exactly the texts of RFC 8259 with these changes (`JsonLanguage.AcceptedTexts`), if no length is
  beyond its limit: a comma may stand
  before a closing bracket or brace, any character may follow a backslash, control characters may stand in strings, a
  minus sign needs no digits, and anything may follow a NUL after the value; but the escape of a surrogate must be
  followed by another \u escape. Each of the changes adds a text, or takes one away (`JsonDeviations.ExtraTexts`,
  `JsonDeviations.LoneSurrogateRefused`), and the texts in common are those with none of them
  (`JsonDeviations.AcceptedRfcTexts`).
- A piece to be sealed has its length cut to 16 bits before the assertion that bounds it (aead.c:487-493). So a longer
  piece passes if its low 16 bits are at most 0x3FFF, is sent short, and does not arrive: a piece arrives if and only if
  it has at most 0x3FFF bytes (`AeadFraming.CipherCtx.Encrypt`, `AeadRoundTrip.PieceArrives`).

## Model

| member | source | states |
|---|---|---|
| DecisionTree.CanonicalUnique | deps/libipset/src/bdd/basics.c:163-244 | two ordered and reduced diagrams are the same diagram exactly if they denote the same function: what hash-consing and structural comparison rely on |
| DecisionTree.IteCanonical | deps/libipset/src/bdd/basics.c:323-456 | the recursion of an insertion turns ordered reduced diagrams into ordered reduced ones, and tests no variable above those of its operands |
| DecisionTree.IteMeaning | deps/libipset/src/bdd/basics.c:460-467 | inserting a partial assignment gives the new value exactly on the valuations that agree with it on its variables, and leaves the function alone elsewhere |
| NodeGraph.UnfoldInjective | deps/libipset/src/bdd/basics.c:188-244 | sharing is complete: in a cache without duplicate contents two ids with equal subdiagrams are one id |
| NodeGraph.UnfoldCanonical | deps/libipset/src/bdd/basics.c:188-244 | every id of a duplicate-free cache stands for an ordered reduced diagram |
| NodeGraph.SameIdIffSameFunction | deps/libipset/src/bdd/basics.c:188-244 | comparing two ids of one cache decides equality of the functions they denote |
| NodeGraph.UnfoldStable | deps/libipset/src/bdd/basics.c:141-160 | a node that stays live keeps its meaning, whatever else is created, freed or overwritten |
| CacheState.RetireCounted | deps/libipset/src/bdd/basics.c:141-160 | when a count has dropped to zero and the node gives its two edges back as references, every count again equals parent edges plus held references |
| CacheState.RecycleValid | deps/libipset/src/bdd/basics.c:151-158 | removing a dead node from the hash table and pushing it on the free list keeps free list, table and nodes consistent |
| CacheState.FillValid | deps/libipset/src/bdd/basics.c:101-124 | overwriting the allocator's slot, recycled or new, keeps the free list, the table and the graph consistent |
| CacheState.FillCounted | deps/libipset/src/bdd/basics.c:227-243 | a new node that takes over the references to its children leaves all reference counts exact |
| CacheState.FillMeaning | deps/libipset/src/bdd/basics.c:227-243 | a newly created id means a test of its variable between the meanings of its children |
| CacheState.MadeOk | deps/libipset/src/bdd/basics.c:188-244 | making a node keeps free list, table, order and uniqueness, and the id stands for the reduced test, whenever a new node tests its variable before its children and no count drops to zero |
| CacheState.UnsafeBreaks | deps/libipset/src/bdd/basics.c:227-243 | in every other case a new node breaks the diagram: its children are not live, or do not test later variables |
| CacheState.UnsafeReleases | deps/libipset/src/bdd/basics.c:194-225 | in every other case without a new node the reference that is given up is the last one to the node that is returned, or to a child of it |
| NodeCache.Cache.AllocNode | deps/libipset/src/bdd/basics.c:101-124 | hands out the head of the free list and unlinks it, or grows the array by one node if the list is empty |
| NodeCache.Cache.Incref | deps/libipset/src/bdd/basics.c:128-138 | one more reference to exactly the node (none for a terminal); the rest of the cache is as before, and counts that were exact stay so |
| NodeCache.Cache.Decref | deps/libipset/src/bdd/basics.c:141-160 | gives up one reference: with exact counts they stay exact through the cascade and nothing is freed while other references remain; a caller that does not hold the reference changes that one count, if it stays above zero |
| NodeCache.Cache.Release | deps/libipset/src/bdd/basics.c:148-158 | a node whose count is zero ends up free, with every count exact after the cascade through its children |
| NodeCache.Cache.MakeNonterminal | deps/libipset/src/bdd/basics.c:188-244 | the result means the reduced test of the variable, existing nodes are untouched, and the new state is exactly that of the skipped, found or created node; a caller that owns its references to low and high exchanges them for one to the result |
| NodeCache.Cache.Evaluate | deps/libipset/src/bdd/basics.c:262-296 | walking from an id to a terminal computes the function that the id denotes |
| NodeCache.Cache.NodesEqual | deps/libipset/src/bdd/basics.c:163-185 | comparing nodes of two caches is equality of their diagrams |
| NodeCache.Cache.NodesEqualIffSameFunction | deps/libipset/src/bdd/basics.c:163-185 | comparing nodes of two caches decides whether they denote the same function |
| NodeCache.Cache.ApplyIte | deps/libipset/src/bdd/basics.c:323-456 | computes the if-then-else of the partial assignment, keeps every count exact, adds one reference for the result and restores the assignment's current variable |
| NodeCache.Cache.Insert | deps/libipset/src/bdd/basics.c:460-467 | the result means the old diagram with the assignment inserted, earlier nodes are unchanged, counts are exact, and the caller gains exactly one reference |
| CacheRuns.LiveIsReachable | deps/libipset/src/bdd/basics.c:141-160 | with exact counts every live node hangs from some held reference: nothing leaks |
| CacheRuns.Execute | deps/libipset/src/bdd/basics.c:128-160 | one increment, decrement or insertion moves the roots of a client, and the functions they denote, together |
| CacheRuns.Run | deps/libipset/src/bdd/basics.c:101-467 | after any sequence of increments, decrements and insertions each root denotes what the sequence says, two roots are the same id exactly if they denote the same function, and the slots in use are exactly those reachable from the roots |
| Reachable.ReachableCount | deps/libipset/src/bdd/reachable.c:19-75 | the work-list traversal returns the number of distinct nonterminals reachable from the id, however they are shared |
| Reachable.ReachMinimal | deps/libipset/src/bdd/reachable.c:39-69 | a visited set closed under children contains all that is reachable: the traversal may stop when its list is empty |
| Paths.PathsPartition | deps/libipset/src/bdd/bdd-iterator.c:17-129 | the assignments of a BDD are pairwise disjoint, together cover every valuation, carry its value, and come low branch first |
| Paths.PathValue | deps/libipset/src/bdd/bdd-iterator.c:26-45 | the value of an assignment is the value of every valuation that agrees with it |
| Paths.PathOrder | deps/libipset/src/bdd/bdd-iterator.c:78-129 | of two assignments the earlier takes the low branch where they first differ |
| Assignments.Assignment.Equal | deps/libipset/src/bdd/assignments.c:34-76 | true exactly if both fix the same variables in the same way, whatever the lengths of the vectors |
| Assignments.Assignment.Cut | deps/libipset/src/bdd/assignments.c:80-87 | forgets the variable and all higher ones and nothing else |
| Assignments.Assignment.Get | deps/libipset/src/bdd/assignments.c:97-108 | what the vector says of a variable, and EITHER beyond its end |
| Assignments.Assignment.Set | deps/libipset/src/bdd/assignments.c:111-134 | changes one variable, growing the vector with EITHER where needed |
| BddIterator.Iterator.constructor | deps/libipset/src/bdd/bdd-iterator.c:49-65 | a new iterator is about to yield all paths of the BDD, from the first |
| BddIterator.Iterator.AddNode | deps/libipset/src/bdd/bdd-iterator.c:26-45 | tracing low edges to a terminal puts the paths of the node before those still to come |
| BddIterator.Iterator.Advance | deps/libipset/src/bdd/bdd-iterator.c:78-129 | drops exactly the current path: popping finished nodes and switching one to its high branch skips none and repeats none |
| Bits.BitSetGet | deps/libipset/include/ipset/bits.h:23-55 | a bit that was set reads back, and all other bits of the array are unchanged |
| Expansion.ExpandedExact | deps/libipset/src/bdd/expanded.c:17-138 | the expansion has every completion of the assignment, once, in increasing binary order: 2^k of them for k open variables |
| Expansion.Expander.constructor | deps/libipset/src/bdd/expanded.c:63-97 | a new expansion is about to yield all completions, from the least |
| Expansion.Expander.Initialize | deps/libipset/src/bdd/expanded.c:21-60 | collects the open variables in order, and sets the bits to the least completion |
| Expansion.Expander.Advance | deps/libipset/src/bdd/expanded.c:100-138 | drops exactly the current completion |
| Expansion.Expander.CountUp | deps/libipset/src/bdd/expanded.c:108-137 | the carry over the open bits gives the next completion, or ends if all of them are set |
| SetIterator.FindLastNonEitherBit | deps/libipset/src/set/iterator.c:39-52 | finds the highest variable that the assignment fixes, or 0 |
| SetIterator.CreateIpAddress | deps/libipset/src/set/iterator.c:60-84 | the address has the bits of the expanded assignment up to the prefix, zeros after it, and the version of variable 0 |
| SetIterator.Iteration.constructor | deps/libipset/src/set/iterator.c:280-297 | a new iteration is about to yield the blocks of all assignments with the desired value |
| SetIterator.Iteration.ProcessAssignment | deps/libipset/src/set/iterator.c:217-276 | skips assignments with the other value and starts on the next one without losing a block |
| SetIterator.Iteration.ExpandBoth | deps/libipset/src/set/iterator.c:246-257 | an assignment that leaves the IP version open yields its IPv4 blocks, then its IPv6 blocks, then the rest |
| SetIterator.Iteration.Expand | deps/libipset/src/set/iterator.c:162-209 | expands one assignment under one IP version, in summary up to the last variable that it fixes, or address by address |
| SetIterator.Iteration.AdvanceAssignment | deps/libipset/src/set/iterator.c:92-136 | after an expansion come the IPv6 half, if it is due, and then the later assignments; overriding variable 0 does not disturb the BDD iterator |
| SetIterator.Iteration.ProcessExpandedAssignment | deps/libipset/src/set/iterator.c:144-159 | takes the current completion as the address, or goes on if there is none |
| SetIterator.Iteration.Advance | deps/libipset/src/set/iterator.c:328-342 | drops exactly the current block |
| AddressBlocks.BlocksExact | deps/libipset/src/set/iterator.c:162-276 | the blocks of a set cover every address with the desired membership exactly once and no other address, both in summary and address by address |
| AddressBlocks.BlocksDisjoint | deps/libipset/src/set/iterator.c:162-276 | no address is in two of the blocks |
| AddressBlocks.PlainAddresses | deps/libipset/src/set/iterator.c:165-209 | without summarizing, every block is a single address |
| Summaries.SummaryExact | deps/libipset/src/set/iterator.c:165-209 | with summarizing, a block is listed exactly if all its addresses have the wanted membership and not all those of the block one bit shorter: the list is that of the greatest networks in the set |
| Summaries.NotWider | deps/libipset/src/set/iterator.c:165-209 | no listed block could be shorter, since its last bit is the last test on the path that it comes from |
| IpSet.InsertKeepsFits | deps/libipset/src/set/inspection-template.c.in:56-78 | inserting a network of either version keeps the BDD within the variables of its addresses, which is what iteration relies on |
| IpSet.CoversIsCube | deps/libipset/src/set/inspection-template.c.in:37-46 | the addresses of a network are exactly those whose valuations agree on the version and the prefix bits |
| IpSet.SameAddresses | deps/libipset/src/set/inspection-template.c.in:74 | two sets are the same BDD exactly if they have the same addresses |
| IpSet.AddressSet.Contains | deps/libipset/src/set/inspection-template.c.in:49-54 | answers membership of an address |
| IpSet.AddressSet.ChangeNetwork | deps/libipset/src/set/inspection-template.c.in:56-130 | exactly the addresses of the network are added or removed, an overlong prefix changes nothing, and the result says whether the set was the same before |
| IpSet.AddressSet.Replace | deps/libipset/src/set/inspection-template.c.in:74-77 | releasing the old root leaves the new one, and its meaning, intact |
| IpSet.ListBlocks | deps/libipset/src/set/iterator.c:280-342 | driving an iteration to its end yields all blocks in order |
| IpSet.ChangeThenList | deps/libipset/src/set/iterator.c:217-342 | from end to end: after any changes to a new set a query answers by the last change that covers the address, and iteration lists exactly the addresses in the set, or exactly those not in it: as the greatest networks among them, or one by one |
| FileFormat.DecodeEncodeRecs | deps/libipset/src/bdd/write.c:364-375 | node records read back as they were written |
| FileFormat.DecodeNodes | deps/libipset/src/bdd/read.c:151-295 | a written header and records pass every check of the loader and give the records back |
| FileFormat.DecodeValue | deps/libipset/src/bdd/read.c:186-198 | a written terminal passes every check of the loader and gives its value back |
| FileFormat.Verdict | deps/libipset/src/bdd/read.c:127-350 | which files are accepted, by their bytes: those of version 1 that are complete and have their true size in the header; and for each error the files that get it |
| FileFormat.FileBytes | deps/libipset/src/bdd/write.c:187-390 | a header and a record byte by byte |
| Octets.BigEndian | deps/libipset/src/bdd/read.c:52-125 | integers in files and on the wire have their most significant byte first |
| SavedOrder.PostOrderClosed | deps/libipset/src/bdd/write.c:128-183 | a children-first order contains everything reachable from its members |
| SavedOrder.RecordsFormatOk | deps/libipset/src/bdd/read.c:227-265 | what is written for a reduced BDD meets the guarantee of the format: references go back, variables increase, no record repeats |
| SavedOrder.LoadedMeaning | deps/libipset/src/bdd/read.c:206-280 | the graph that the records describe gives each node the meaning it had |
| LoadSteps.FormatLoads | deps/libipset/src/bdd/read.c:206-280 | records that keep the guarantee of the format turn an empty cache, without damage, into the graph that they describe, each node with its own number and a count of one |
| LoadSteps.RedundantDamages | deps/libipset/src/bdd/read.c:206-280 | a record with two equal nonterminal children frees the node that it stands for |
| LoadSteps.RepeatedDamages | deps/libipset/src/bdd/read.c:206-280 | a record that repeats another with a nonterminal child frees a child that is in use |
| LoadSteps.UnorderedDamages | deps/libipset/src/bdd/read.c:206-280 | a record with a variable that is not before those of its children breaks the order |
| LoadSteps.RepeatedLeafLoads | deps/libipset/src/bdd/read.c:206-280 | a record that repeats another with terminal children is harmless and gives the same node |
| SaveLoad.Saver.VisitNode | deps/libipset/src/bdd/write.c:128-183 | adds the unwritten nonterminals below an id, children first and each once, and returns the serialized id |
| SaveLoad.Saver.VisitNonterminal | deps/libipset/src/bdd/write.c:154-181 | the record of a nonterminal comes after those of its children, and it gets the next negative number |
| SaveLoad.Save | deps/libipset/src/bdd/write.c:187-390 | writes a header with the true size and count, and one record for each reachable nonterminal, the root last |
| SaveLoad.LoadRecord | deps/libipset/src/bdd/read.c:206-280 | one record, whatever it says, makes of the cache what the step of a record says, with pointers resolved by the table, or is told to damage it |
| SaveLoad.LoadV1 | deps/libipset/src/bdd/read.c:151-295 | for any file and any cache: as long as no record damages the cache it is what the records make of it, and the file is accepted exactly if it is complete and its length field is its size, with the right error for every other file |
| SaveLoad.Load | deps/libipset/src/bdd/read.c:299-350 | the same for the magic number and the version; a terminal loses the bit that its tagged word has no room for |
| RoundTrip.SaveThenLoad | deps/libipset/src/bdd/read.c:299-350 | a saved BDD loads as the same function in as many nodes as were reachable, and the reference counts are right exactly if no two nonterminals of the saved BDD have a nonterminal child in common |
| RoundTrip.LoadedCounts | deps/libipset/src/bdd/read.c:206-280 | with all counts at one, as a load leaves them, they are right exactly if no nonterminal has two parent edges |
| RoundTrip.SharingSaved | deps/libipset/src/bdd/read.c:206-280 | whether the written records share a child is whether the saved BDD does |
| RoundTrip.LoadShared | deps/libipset/src/bdd/read.c:206-350 | loading a file of three nodes with a shared child into a new cache gives the child a count of 1 with 2 parent edges |
| RoundTrip.OnlyByteVariables | deps/libipset/src/bdd/write.c:364-375 | no file loads as a BDD with a variable above 255 |
| RoundTrip.RawRoundTrip | deps/libipset/include/ipset/bdd/nodes.h:62-124 | a node id survives its 32-bit tagged word exactly if its value or index is below 2^31 |
| RoundTrip.ErrorWordAmbiguous | deps/libipset/src/bdd/read.c:299-350 | a successful load returns the word that also reports errors exactly if the file has one nonterminal |
| RoundTrip.OneNonterminalLooksLikeError | deps/libipset/src/bdd/read.c:299-350 | such a file |
| AeadFraming.CipherCtx.ChunkEncrypt | deps/shadowsocks-libev/aead.c:487-522 | a chunk is its sealed two-byte length and its sealed contents under consecutive nonces |
| AeadFraming.CipherCtx.Encrypt | deps/shadowsocks-libev/aead.c:487-573 | the first non-empty call sends the salt; each call sends one chunk, of as many bytes as the low 16 bits of the length say, and leaves the rest of the buffer as it was; for pieces that fit a chunk this is the whole piece |
| AeadFraming.CipherCtx.ChunkDecrypt | deps/shadowsocks-libev/aead.c:576-621 | opens the chunk at the front and advances the nonce twice; an incomplete chunk changes nothing; an error is told from waiting |
| AeadFraming.CipherCtx.DecryptChunks | deps/shadowsocks-libev/aead.c:668-687 | opens all complete chunks of the buffer in order and keeps the rest |
| AeadFraming.CipherCtx.Decrypt | deps/shadowsocks-libev/aead.c:624-704 | a segment from the wire: waits for the salt, refuses a repeated one, opens what is complete, and records the salt |
| AeadRoundTrip.NeedMoreKeeps | deps/shadowsocks-libev/aead.c:576-704 | asking for more loses no byte, moves no nonce and gives no plaintext |
| AeadRoundTrip.FeedSplit | deps/shadowsocks-libev/aead.c:624-704 | two segments in two calls give what their concatenation gives in one: the same plaintext, context and error |
| AeadRoundTrip.AnySegments | deps/shadowsocks-libev/aead.c:624-704 | so does any cutting of a stream into segments, of any bytes |
| AeadRoundTrip.CompleteIsMost | deps/shadowsocks-libev/aead.c:576-621 | the number of chunks complete in a prefix is the most that fit into it |
| AeadRoundTrip.StreamRoundTrip | deps/shadowsocks-libev/aead.c:526-704 | whatever the pieces sent and the segments received so far, the receiver has no error, has the plaintext of exactly the chunks complete so far, and its nonce counts them |
| AeadRoundTrip.PlaintextArrives | deps/shadowsocks-libev/aead.c:526-704 | what arrives is a prefix of the plaintext, and all of it once the whole ciphertext is in |
| AeadRoundTrip.PieceArrives | deps/shadowsocks-libev/aead.c:487-573 | a piece that passes the assertion arrives exactly if it has at most 0x3FFF bytes; a longer one arrives cut, with stray bytes behind it, or is an error if nothing of it is sent |
| AeadRoundTrip.SenderNonce | deps/shadowsocks-libev/aead.c:487-522 | the nonce of the sender is twice the number of chunks it has sent, modulo the nonce space |
| AeadChunks.ChunkSealed | deps/shadowsocks-libev/aead.c:487-573 | chunk j of the wire has its length sealed under nonce 2j and its contents under nonce 2j + 1 |
| AeadChunks.GoodChunk | deps/shadowsocks-libev/aead.c:576-621 | a complete chunk that opens gives its contents, its length being the lower 14 bits, and the rest is opened two nonces later |
| AeadChunks.BadLength | deps/shadowsocks-libev/aead.c:576-621 | a chunk whose sealed length does not open is an error without output |
| AeadChunks.BadContents | deps/shadowsocks-libev/aead.c:576-621 | and so is a complete chunk whose sealed contents do not open |
| AeadReplay.SaltRecorded | deps/shadowsocks-libev/aead.c:624-704 | the filter only grows, and has the salt of every stream that has given plaintext |
| AeadReplay.CutSaltRefused | deps/shadowsocks-libev/aead.c:645-660 | a new connection refuses a stream with a salt in the filter, however it is cut, and gives no plaintext |
| AeadReplay.ReplayRefused | deps/shadowsocks-libev/aead.c:624-704 | a stream that has given plaintext once is refused by every later connection that shares the filter |
| AeadReplay.ReflectionRefused | deps/shadowsocks-libev/aead.c:551-560 | and so is a stream that has been sent, if it comes back |
| StreamFraming.PaddingTrick | deps/shadowsocks-libev/stream.c:412-430 | padding with zeros up to the place in the block and starting the cipher at that block xors with the one keystream of the connection |
| StreamFraming.CipherCtx.Update | deps/shadowsocks-libev/stream.c:412-430 | xors the data with the keystream from the counter on and advances the counter by its length |
| StreamFraming.CipherCtx.Encrypt | deps/shadowsocks-libev/stream.c:382-451 | the first call starts a counter and sends the nonce |
| StreamFraming.CipherCtx.Decrypt | deps/shadowsocks-libev/stream.c:513-620 | collects the nonce, which may come in parts, refuses a repeated one, decrypts what follows, and records the nonce |
| StreamRoundTrip.SenderWire | deps/shadowsocks-libev/stream.c:382-451 | the bytes on the wire are the nonce and the whole plaintext under one keystream, however it was cut |
| StreamRoundTrip.FeedSplit | deps/shadowsocks-libev/stream.c:513-620 | two segments in two calls give what their concatenation gives in one |
| StreamRoundTrip.AnySegments | deps/shadowsocks-libev/stream.c:513-620 | so does any cutting of a stream into segments, of any bytes |
| StreamRoundTrip.RoundTrip | deps/shadowsocks-libev/stream.c:382-620 | whatever the pieces and the segments, the receiver has exactly the plaintext of the bytes received beyond the nonce |
| StreamRoundTrip.WholeStream | deps/shadowsocks-libev/stream.c:382-620 | the whole ciphertext gives the whole plaintext |
| StreamReplay.NonceRecorded | deps/shadowsocks-libev/stream.c:513-620 | the filter only grows, and has the nonce of every stream that has given plaintext |
| StreamReplay.CutNonceRefused | deps/shadowsocks-libev/stream.c:513-620 | a new connection refuses a stream with a nonce in the filter, however it is cut, and gives no plaintext |
| StreamReplay.ReplayRefused | deps/shadowsocks-libev/stream.c:513-620 | a stream that has given plaintext once is refused by every later connection that shares the filter |
| StreamReplay.ReflectionRefused | deps/shadowsocks-libev/stream.c:401-410 | and so is, in a remote server, a stream that has been sent |
| Pipe.TcpPipe | src/lib/protocol/tcp.c:278-315 | reading from the source and writing to the destination moves one direction as the value says, and leaves the other direction of the same two connections alone |
| Pipe.TcpPipeWrite | src/lib/protocol/tcp.c:317-342 | a writable destination sends pending bytes, or reopens the source when none are left, and leaves the other direction alone |
| Pipe.ReadKeeps | src/lib/protocol/tcp.c:278-315 | after a read exactly the bytes accepted have been sent, and the source is read again exactly if that was all |
| Pipe.WriteKeeps | src/lib/protocol/tcp.c:317-342 | after a write the next pending bytes have been sent, and the source is read again exactly if there were none left |
| Pipe.RunConserves | src/lib/protocol/tcp.c:278-342 | in every state of every interleaving of read and write events of both directions, what was sent is a prefix of what was received and the pending bytes are the rest: none lost, doubled or reordered |
| Pipe.NeverStalls | src/lib/protocol/tcp.c:278-342 | if the destination takes at least a byte each time, all pending bytes get sent and the source is read again |
| Pipe.FailedWriteKeepsBytes | src/lib/protocol/tcp.c:292-296 | also when a write fails, what was received is what was sent and what is pending |
| Quoting.CatRepr | deps/redis/sds.c:876-899 | appends the quoted representation of any bytes |
| Quoting.EscapeTable | deps/redis/sds.c:876-899 | the escapes, character by character |
| Quoting.ReadToken | deps/redis/sds.c:960-1044 | reads one token in the bare, double-quoted and single-quoted modes, and fails on unbalanced quotes or text right after a closing quote |
| Quoting.SplitArgs | deps/redis/sds.c:951-1059 | splits a line into its tokens, or fails as a whole |
| Quoting.SplitLine | deps/redis/sds.c:876-1059 | any list of byte strings, each quoted and joined by spaces, splits into exactly that list |
| Quoting.ScanRepr | deps/redis/sds.c:968-1002 | a quoted string is one token if nothing or a space follows, and otherwise the split fails |
| Quoting.ScanWord | deps/redis/sds.c:1018-1038 | a word without spaces, quotes and NULs is a token as it stands |
| Quoting.ScanSingleRepr | deps/redis/sds.c:1003-1017 | between apostrophes every character stands for itself, but for an apostrophe after a backslash |
| Quoting.ScanSingleBackslash | deps/redis/sds.c:1003-1017 | so a string that ends in a backslash cannot be written like that |
| Quoting.MalformedToken | deps/redis/sds.c:951-1059 | splitting fails exactly if one of the tokens, found by splitting from the left, is not closed properly |
| Base64.CharValue | deps/shadowsocks-libev/base64.c:28-48 | the decoder's table undoes the encoder's alphabet |
| Base64.ValueChar | deps/shadowsocks-libev/base64.c:28-48 | and accepts no other characters |
| Base64.Alphabet | deps/shadowsocks-libev/base64.c:28-48 | the alphabet is the URL-safe one of RFC 4648 |
| Base64.BytesSextets | deps/shadowsocks-libev/base64.c:51-106 | splitting bytes into groups of six bits loses nothing |
| Base64.PartsInOrder | deps/shadowsocks-libev/base64.c:78-106 | three bytes and their four groups of six bits are the same number of 24 bits |
| Base64.TextLayout | deps/shadowsocks-libev/base64.c:78-106 | the text is the characters of the groups, filled up with = to a multiple of four |
| Base64.Encode | deps/shadowsocks-libev/base64.c:78-106 | succeeds exactly if the input and the buffer allow it, and then leaves the text, its padding and a NUL, and touches nothing after them |
| Base64.Decode | deps/shadowsocks-libev/base64.c:51-70 | refuses exactly the texts with a character outside of the alphabet; otherwise stores as many of the bytes as the buffer has room for |
| Base64.DecodeText | deps/shadowsocks-libev/base64.c:51-106 | decoding the buffer that the encoder leaves gives the input back |
| PowersOfTwo.MaskIsRemainder | deps/shadowsocks-libev/uthash.h:320-323 | masking with the number of buckets less one is the remainder by it |
| PowersOfTwo.ShiftAndMaskRoundUp | deps/shadowsocks-libev/uthash.h:801-804 | the ideal chain length is the number of items over the number of buckets, rounded up |
| HashTable.Table.Find | deps/shadowsocks-libev/uthash.h:119-136 | returns an element with the key, and none only if no element has it |
| HashTable.Table.Add | deps/shadowsocks-libev/uthash.h:284-309 | the element comes last in the list of all elements; chains, counts and links stay consistent, also when the buckets double |
| HashTable.Table.Delete | deps/shadowsocks-libev/uthash.h:337-370 | exactly the element goes, from the list and from its chain, and the others keep their order |
| HashTable.Table.AppendList | deps/shadowsocks-libev/uthash.h:225-231 | links an element at the end of the list, both ways |
| HashTable.Table.RemoveFromList | deps/shadowsocks-libev/uthash.h:349-364 | unlinks an element at the front, in the middle or at the end |
| HashTable.Table.AddToBkt | deps/shadowsocks-libev/uthash.h:736-747 | puts an element at the front of its chain; doubles the buckets exactly if the chain is then too long for its multiplier and doubling has not been given up, and otherwise changes no other chain |
| HashTable.Table.DelInBkt | deps/shadowsocks-libev/uthash.h:750-761 | takes an element out of its chain and leaves all other chains alone |
| HashTable.Table.ExpandBuckets | deps/shadowsocks-libev/uthash.h:791-837 | doubling moves every element to the bucket of its hash value, recomputes the ideal length and the number of elements beyond it, and stops expanding after two ineffective doublings |
| HashTable.Redistribute | deps/shadowsocks-libev/uthash.h:806-827 | relinking the chains in place loses no element, and multipliers and excess counts are right for the new chains |
| HashTable.CountsAddUp | deps/shadowsocks-libev/uthash.h:400-450 | the bucket counts add up to the number of elements in the list |
| LruCache.Cache.Insert | deps/shadowsocks-libev/cache.c:270-308 | appends an entry, and drops the oldest one if the cache is then full |
| LruCache.Cache.Lookup | deps/shadowsocks-libev/cache.c:209-229 | finds an entry exactly if the key is there, returns its data, moves it to the end and gives it the new time |
| LruCache.Cache.KeyExist | deps/shadowsocks-libev/cache.c:232-251 | the same without the data |
| LruCache.Cache.RemoveKey | deps/shadowsocks-libev/cache.c:162-186 | removes an entry with the key and nothing else |
| LruCache.Cache.Clear | deps/shadowsocks-libev/cache.c:120-146 | walking the list while deleting from it drops exactly the entries older than the age |
| LruCache.PerformAll | deps/shadowsocks-libev/cache.c:120-308 | a new cache after any legal operations has the contents that the operations on lists give |
| Recency.RunKeeps | deps/shadowsocks-libev/cache.c:120-308 | after every legal sequence of operations the cache is within its room, has each key once, and is in the order of last use |
| Recency.InsertEvictsOldest | deps/shadowsocks-libev/cache.c:289-305 | an insertion into a full cache drops exactly one entry, which was last used no later than any that stays; otherwise it drops none, and the others keep their order |
| Recency.InsertKept | deps/shadowsocks-libev/cache.c:289-305 | an inserted entry stays exactly if max_entries is more than one or another entry can go in its place |
| Recency.TouchKeeps | deps/shadowsocks-libev/cache.c:219-224 | a used entry goes to the end with its data and the new time, the others stay in order, keys unique and ages sorted |
| Recency.ClearedIsSuffix | deps/shadowsocks-libev/cache.c:128-143 | clearing by age drops a prefix of the list: all its old entries and no others |
| Recency.BiggerHoldsMore | deps/shadowsocks-libev/cache.c:209-308 | after the same uses a smaller cache holds exactly the most recently used keys of a bigger one, in the same order |
| JsonFirstPass.FirstPassEnds | deps/json-parser/json.c:221-904 | the first pass ends on every text, and never goes outside of its values |
| JsonPastEnd.ReadsPastEnd | deps/json-parser/json.c:594-640 | a pass reads the byte after the text exactly if it comes to a value of which only true, false or null without the last letter is left |
| JsonPastEnd.PastEndByText | deps/json-parser/json.c:594-640 | the same by the text alone: it ends in a literal without its last letter, and the pass over the text before that literal ends where a value may start |
| JsonPastEnd.OnlyCutLiterals | deps/json-parser/json.c:594-640 | no pass reads past a text that does not end in "tru", "fals" or "nul" |
| JsonPastEnd.CutLiteralRead | deps/json-parser/json.c:594-640 | the three shortest texts that are read past |
| JsonNumbers.AcceptedNumbers | deps/json-parser/json.c:641-840 | of the texts made of number characters exactly those are accepted that are numbers of RFC 8259, or that have no digit between a minus sign and the end or the exponent |
| JsonNumbers.LoneMinusAccepted | deps/json-parser/json.c:733-840 | a minus sign alone is accepted, and is no number of RFC 8259 |
| JsonLanguage.AcceptedTexts | deps/json-parser/json.c:264-904 | the first pass accepts a text only if the grammar of RFC 8259, with the changes listed under Findings, derives it, and always if the text is within the limit for lengths |
| JsonLanguage.ValueRuns | deps/json-parser/json.c:513-690 | from the first character of any value the pass comes to the end that the grammar gives it, with the values above it as they were, or never accepts |
| JsonDeviations.TextsMeet | deps/json-parser/json.c:264-904 | the texts of two such grammars at once are those of the grammar with the changes that both have |
| JsonDeviations.AcceptedRfcTexts | deps/json-parser/json.c:264-904 | an accepted text of RFC 8259 has a second escape after each escape of a surrogate, and such a text is accepted if it is within the limit |
| JsonDeviations.ExtraTexts | deps/json-parser/json.c:264-904 | trailing commas, unknown escapes, raw control characters, a lone minus and text after a NUL are each accepted against RFC 8259 |
| JsonDeviations.LoneSurrogateRefused | deps/json-parser/json.c:316-331 | the escape of a lone surrogate is refused against RFC 8259 |
| JsonBuild.PassBuilds | deps/json-parser/json.c:100-904 | a pass that accepts a text has made the values of the tree that the grammar reads from it: the first without memory for children and keys, the second with kinds, parents, lengths, children in order and the places of keys |
| JsonOutline.TreeKinds | deps/json-parser/json.c:551-690 | the tree has one value for each span of a value, in order, and the first character, with the presence of a point or exponent, says which kind |
| JsonOutline.TreeParents | deps/json-parser/json.c:855-904 | the parent of a value is that of the innermost span around it, and the slots of an array or object are its direct children in the order of the text |
| JsonOutline.TreeKeys | deps/json-parser/json.c:407-428 | the keys of an object fill the memory behind its entries, each with its NUL |
| JsonOutline.PlainString | deps/json-parser/json.c:270-435 | the length of a string without escapes is the number of its characters |
| JsonOutline.EscapeSizes | deps/json-parser/json.c:285-390 | an escape counts one byte, a \u escape what its code point takes in UTF-8 |
| JsonMeasure.AcceptedBelow | deps/json-parser/json.c:221-904 | every state of an accepting first pass stays below the lengths that it measures in the end |
| JsonTwoPasses.NumberRun | deps/json-parser/json.c:641-840 | in an accepted text the number grammar of the first pass and the skipping of the second stop at the same character |
| JsonTwoPasses.TwoPassesAgree | deps/json-parser/json.c:100-904 | if the first pass accepts, the second fills exactly the memory that was measured and builds a well-formed tree if and only if no object has more than 89478485 members; it writes outside of its memory if and only if an object with too little is reached before any is refused memory, and fails if and only if one is refused first |
| JsonMemory.SlotCountExact | deps/json-parser/json.c:107-153 | the int that holds the size of an object is right exactly up to 89478485 members |
| JsonMemory.OneOfThree | deps/json-parser/json.c:107-153 | accepted values are all small enough, or overrun, or refused, and only one of these |
| JsonLongObject.LongObject | deps/json-parser/json.c:107-153 | an object with n empty keys is parsed up to 89478485 members; beyond that it is refused memory, or overrun, by the sign of its cut size |
| JsonLongObject.TooLongObjects | deps/json-parser/json.c:107-153 | the first lengths that are refused and that are overrun, and one whose size is cut to 8 |
| JsonParser.Parser.RunPass | deps/json-parser/json.c:264-904 | the loop over flags and pointers does what the turns on values say, up to the end of the text |
| JsonParser.Parse | deps/json-parser/json.c:100-940 | a text is accepted with the tree that the grammar reads from it, if its objects are small enough, and all the memory that its values need has been allocated; or it is refused, and the values of the first pass are released, each once; or it is read past, or overrun, as its passes say |
| JsonFree.FreeValue | deps/json-parser/json.c:955-1003 | the stackless deallocation frees every value, every string and the memory of every array and object that is not empty, each exactly once and children before parents, uses every value, and uses or frees nothing that it has freed, although it destroys lengths and parent pointers as it goes |
| JsonParser.ParseThenFree | deps/json-parser/json.c:100-1003 | exactly the blocks that have been allocated are freed, each once, for every tree that the parser builds and for every text that the first pass refuses |

## Left out

- SaveLoad.Load: the model stops at the first record that damages the cache and says so, where the source goes on with
  a broken cache. Before each record it asks whether that is the case, which the source does not.
- SaveLoad.LoadV1: the same.
- NodeCache.Cache.MakeNonterminal: not after the cache has been damaged: a new node must test its variable before its
  children do, and references that are given back must leave a count above zero, or be owned.
- NodeCache.Cache.Incref: counts, indices and values are unbounded; the 32-bit wrap of a count is not modelled, and
  `RoundTrip.RawRoundTrip` states when an id fits its word.
- RoundTrip.SaveThenLoad: for BDDs that a file can hold (variables up to 255, terminals and references in 31 bits), and
  into an empty cache.
- AeadFraming.CipherCtx.Encrypt: seal and open are functions with the round-trip law of an AEAD; their security, the
  derivation of the subkey and the random salt are outside. The salt filter is an exact set, not a Bloom filter that may
  refuse a new salt. Pieces that fail the assertion in the source end the program there and are not modelled.
- AeadRoundTrip.StreamRoundTrip: for pieces that fit a chunk; `AeadRoundTrip.PieceArrives` says what becomes of others.
- StreamFraming.CipherCtx.Encrypt: only salsa20, chacha20 and chacha20-ietf, within the range of their block counters;
  the older methods delegate to mbedTLS.
- StreamFraming.CipherCtx.Update: the cipher is a function from nonce and block number to 64 bytes.
- Pipe.RunConserves: sockets and the event loop are the events of a run; a write that fails is modelled for one call
  (`Pipe.FailedWriteKeepsBytes`) and ends a run.
- Pipe.NeverStalls: for a destination that takes at least one byte at a time.
- Quoting.CatRepr: characters are classified as in the C locale.
- Base64.Decode: lengths are unbounded integers, apart from the bound on the input of the encoder.
- HashTable.Table.Add: counters are unbounded; the hash function is a parameter. The macros that replace, sort or
  select elements, and the Bloom filter of uthash, are not modelled.
- LruCache.Cache.Insert: the clock is a parameter, and the free callback and `cache_delete` are left out.
- Recency.RunKeeps: for clocks that do not go back and insertions of absent keys. An insertion does not look for its
  key, so otherwise a key may be there twice.
- JsonTwoPasses.TwoPassesAgree: lengths, positions, kinds and the shape of the tree, not the characters of strings, the
  values of numbers and the truth values of booleans; pointers have eight bytes and ints four. Comments, error messages
  and the settings for memory limits are left out. The only allocation that fails is the one of a size that has become
  negative.
- JsonParser.Parse: what is released after a refused allocation, and after undefined behaviour, is not modelled.
- JsonLanguage.AcceptedTexts: which of the texts longer than the limit (0xFFFFFFF7 bytes) have a string, array or object
  beyond it, and are refused for that. A text begins after a byte order mark. Whether strings are valid UTF-8 is not
  looked at, by the parser or the grammar.
- JsonFree.FreeValue: the null pointer of an empty array or object is not logged as a block.
- AeadReplay.ReplayRefused: the filter is an exact set that keeps all salts.
- Failure of memory allocation (but for the one named above) and of writing to a file, everywhere.
- The map half of libipset, its text printers (dot and list output), and the freeing of iterators.
- The modules of the applications, the SOCKS5 handshake, DNS, logging, configuration and the event loop: their logic
  is short, and their properties would be about sockets.
