# SVisual: verified models

A Dafny project that models the densest code of the SVisual repository and proves what that code is for.
`dafny verify dfyconfig.toml` checks everything.

* **Search trees of libuv** (`Trees`, `RbCells`, `RedBlackTree`, `SplayCells`, `SplayTree`). Heap nodes with child, parent and
  colour fields, rewired in place. A ghost map from nodes to cells (links, place in order, black count) is kept beside
  the fields; every step of the pointer code is proved to be a step of that map, and the map's lemmas are local, one
  node at a time.
* **RapidJSON's two parsers** (`JsonText`, `JsonGrammar`, `JsonAgreement`, `JsonReader`). `JsonGrammar` states what each
  parser computes: the recursive descent over positions, and the table machine over an explicit stack. `JsonReader` has
  the two parsers as they run; `JsonAgreement` proves that they agree on every text.
* **Its document tree** (`JsonDocument`): values, their replay as events, and the stack that rebuilds them.
* **Its JSON Pointer** (`PointerText`, `PointerTree`): parsing and printing, plain and as URI fragment; Get and Create.
  A `ValueType*` into a tree is the sequence of child numbers that leads to it, and a write through it a write at that place.
* **Its UTF codecs and pool allocator** (`Unicode`, `Utf8`, `Utf16`, `PoolAllocator`).
* **SVisual's own concurrent and stateful code**: `SpinLock`, `Logger`, and the Arduino client with its tree index
  (`BinTree`, `Recorder`). Threads are state machines whose steps are the atomic operations or critical sections; the
  schedule is any sequence of steps.

Where the code and what is said of it differ, the model follows the code, and a lemma says exactly when they meet:

* The two JSON parsers give different error codes for the same rejected text exactly when its first significant character
  is one of `] } , :` (`JsonAgreement.SameOutcome`; `JsonAgreement.BracketDiffers` is such a text). Verdict and events
  never differ.
* The comment in pointer.h says that a number too large for an index is kept as a string only. The overflow test does not
  see every wrap (`PointerText.WrapUndetected`). `PointerText.StringOnlyWhen` says for which such numbers the comment
  holds, and `PointerText.IndexIs` what every canonical name gets.
* Create followed by Get misses the new node when the path applies `-` to an array (`PointerTree.DashMissed`), and only
  then (`PointerTree.CreateThenGet`, which also covers a `-` that a user's token array gives an index).
* A waiting writer's first CAS after the holders have left can still fail without being spurious, because its `isBlock`
  may be older (`SpinLock.LeftoverReached`); exactly then (`SpinLock.WriterEnters`).

## Model

| member | source | states |
|---|---|---|
| RedBlackTree.Tree.Insert | src/3rdparty/libuv/tree.h:598-626 | For any valid tree and any element, also one already in it: an equal element is returned and nothing changes; otherwise the in-order sequence gains exactly the new element, and the tree is again ordered, linked both ways, without red-red pairs, with equal black counts |
| RedBlackTree.Tree.Remove | src/3rdparty/libuv/tree.h:530-595 | For any element of any valid tree, also one with two children: the in-order sequence loses exactly that element, and every red-black invariant holds again |
| RedBlackTree.Tree.InsertColor | src/3rdparty/libuv/tree.h:407-449 | One red-red pair at the new element is worked up and out, keeping the in-order sequence; the loop terminates |
| RedBlackTree.Tree.RemoveColor | src/3rdparty/libuv/tree.h:451-528 | One missing black is pushed up or paid, keeping the in-order sequence; afterwards no path is short; the loop terminates |
| RedBlackTree.Tree.Rotate | src/3rdparty/libuv/tree.h:342-380 | Either rotation rewires six links and keeps order, parent links and the in-order sequence |
| RedBlackTree.Tree.RemoveInner | src/3rdparty/libuv/tree.h:530-595 | The element with two children: its successor takes its place and colour, and the missing black is where the successor was |
| RedBlackTree.Tree.RemoveSimple | src/3rdparty/libuv/tree.h:530-595 | The element with at most one child is spliced out and the tree rebalanced |
| RbCells.SiblingThere | src/3rdparty/libuv/tree.h:456-498 | The sibling that the fix-up loop reads is never NULL, on either side |
| RbCells.RotShape | src/3rdparty/libuv/tree.h:342-380 | A rotation keeps every node's position in order and every link consistent |
| RbCells.InsertDone | src/3rdparty/libuv/tree.h:411-448 | When the insertion loop stops, blackening the root leaves a balanced tree |
| RbCells.Settle | src/3rdparty/libuv/tree.h:451-528 | Painting the fix-up's last node black pays the missing black |
| RbCells.NothingOwed | src/3rdparty/libuv/tree.h:456-457 | When the fix-up reaches the root, no path is short any more |
| RedBlackTree.Tree.Find | src/3rdparty/libuv/tree.h:628-644 | The element with that key if there is one, NULL exactly when there is none |
| RedBlackTree.Tree.NFind | src/3rdparty/libuv/tree.h:646-665 | The first element, in order, not below the key; NULL exactly when all are below |
| RedBlackTree.Tree.Next | src/3rdparty/libuv/tree.h:667-687 | The in-order successor, by child and parent links only; NULL exactly at the maximum |
| RedBlackTree.Tree.Prev | src/3rdparty/libuv/tree.h:689-709 | The in-order predecessor; NULL exactly at the minimum |
| RedBlackTree.Tree.NextPrevInverse | src/3rdparty/libuv/tree.h:667-709 | Next and Prev undo each other on every element that has a neighbour |
| RedBlackTree.Tree.MinMax | src/3rdparty/libuv/tree.h:711-724 | The first or last element in order; NULL exactly for the empty tree |
| RedBlackTree.Tree.Foreach | src/3rdparty/libuv/tree.h:738-741 | The iteration from the minimum by Next visits every element exactly once, in ascending order, and ends |
| RedBlackTree.Tree.EqualBlackCounts | src/3rdparty/libuv/tree.h:53-57 | Every search path from the root to a leaf has the same number of black nodes |
| RedBlackTree.Tree.NodeFacts | src/3rdparty/libuv/tree.h:53-58 | What validity means at a node: children below and above it, parent links back, no red node under a red one |
| RedBlackTree.Tree.InOrder | src/3rdparty/libuv/tree.h:312-318 | The recursion over the child links gives the ghost in-order sequence the contracts speak of |
| RedBlackTree.Tree.HeightByBlacks | src/3rdparty/libuv/tree.h:53-61 | A subtree's height is at most twice its black count, plus one under a red node |
| RedBlackTree.Tree.HeightBound | src/3rdparty/libuv/tree.h:53-61 | 2^height is at most (n+1)^2: the height is at most 2 lg(n+1), as the header promises |
| RedBlackTree.Run | src/3rdparty/libuv/tree.h:530-626 | Any run of insertions and removals from RB_INIT refines a finite set of keys, in a tree that keeps the height bound |
| SplayTree.Tree.Splay | src/3rdparty/libuv/tree.h:209-242 | Top-down splaying terminates and keeps the in-order sequence; the root is then the key's element, or its neighbour below or above when there is none |
| SplayTree.Tree.SplayMinMax | src/3rdparty/libuv/tree.h:247-278 | The same descent to one side brings the minimum or maximum to the root |
| SplayTree.Tree.Find | src/3rdparty/libuv/tree.h:128-137 | Returns the element with the key, NULL exactly when there is none; the set is unchanged |
| SplayTree.Tree.Next | src/3rdparty/libuv/tree.h:139-151 | The in-order successor of an element of the tree, NULL exactly at the maximum |
| SplayTree.Tree.MinMax | src/3rdparty/libuv/tree.h:153-158 | The first or last element in order |
| SplayTree.Tree.Insert | src/3rdparty/libuv/tree.h:164-186 | For any element, also one already in the tree: an equal element is returned and the sequence kept; otherwise the sequence gains exactly the new element |
| SplayTree.Tree.Remove | src/3rdparty/libuv/tree.h:188-207 | The element equal to the argument leaves the sequence, nothing else does; the result is the argument itself, NULL exactly when nothing was equal |
| SplayTree.Tree.RotateHead | src/3rdparty/libuv/tree.h:88-98 | The rotation at the head keeps the three hanging pieces and their order |
| SplayTree.Tree.LinkHead | src/3rdparty/libuv/tree.h:100-110 | Linking moves the head's far side to the left or right piece, at its inner end |
| SplayTree.Tree.AssembleHead | src/3rdparty/libuv/tree.h:112-117 | Assembling the three pieces gives one tree over the same sequence |
| SplayCells.Nested | src/3rdparty/libuv/tree.h:209-242 | Every node of a subtree lies within that subtree's stretch of the sequence |
| SplayTree.Tree.InOrder | src/3rdparty/libuv/tree.h:76-80 | The recursion over the child links gives the ghost in-order sequence |
| SplayTree.Step | src/3rdparty/libuv/tree.h:128-207 | One insertion, removal or search does to the key set what the finite set does |
| SplayTree.Run | src/3rdparty/libuv/tree.h:128-242 | Any run of insertions, removals and searches refines a finite set of keys |
| JsonAgreement.SameVerdictSameEvents | src/3rdparty/rapidjson/reader.h:485-516 | For every text, with comments, trailing commas and stop-when-done each on or off, both parsers accept or both reject, and they send the same events, with all member and element counts |
| JsonAgreement.SameOutcome | src/3rdparty/rapidjson/reader.h:485-516 | Beyond that, where the parse ends is the same, and so is the error code, except exactly when the first significant character is one of ] } , : - there the recursive parser says ValueInvalid and the iterative one DocumentEmpty |
| JsonAgreement.BracketDiffers | src/3rdparty/rapidjson/reader.h:485-516 | A text, a closing bracket, on which the two error codes differ |
| JsonAgreement.SimValue | src/3rdparty/rapidjson/reader.h:1391-1404 | From any state that awaits a value, the machine does what ParseValue does, then goes on |
| JsonAgreement.SimMembers | src/3rdparty/rapidjson/reader.h:588-654 | The machine's object states do what the member loop does, with the same member count |
| JsonAgreement.SimElements | src/3rdparty/rapidjson/reader.h:656-702 | The machine's array states do what the element loop does, with the same element count |
| JsonGrammar.Transit | src/3rdparty/rapidjson/reader.h:1649-1799 | Every transition that is no error consumes input and keeps the state stack well formed |
| JsonGrammar.Value | src/3rdparty/rapidjson/reader.h:1391-1404 | Every accepted value consumes input |
| JsonReader.Reader.Parse | src/3rdparty/rapidjson/reader.h:485-516 | The recursive-descent parser, cursor and event list and all, computes its grammar |
| JsonReader.Reader.IterativeParse | src/3rdparty/rapidjson/reader.h:1821-1854 | The iterative parser, state stack and all, computes the machine |
| JsonReader.ParseBothWays | src/3rdparty/rapidjson/reader.h:485-516 | Running both parsers on a text gives the same verdict and event list |
| JsonReader.Reader.ParseValue | src/3rdparty/rapidjson/reader.h:1391-1404 | ParseValue computes the grammar's value |
| JsonReader.Reader.ParseObject | src/3rdparty/rapidjson/reader.h:588-654 | ParseObject computes the grammar's object |
| JsonReader.Reader.ParseArray | src/3rdparty/rapidjson/reader.h:656-702 | ParseArray computes the grammar's array |
| JsonReader.Reader.Transit | src/3rdparty/rapidjson/reader.h:1649-1799 | Transit computes the machine's move, on the stack in place |
| JsonReader.Reader.SkipWhitespaceAndComments | src/3rdparty/rapidjson/reader.h:559-586 | White space, and with the flag block and line comments, are skipped; what begins a comment and does not finish one is an error |
| JsonReader.Reader.ParseLiteral | src/3rdparty/rapidjson/reader.h:704-741 | null, true and false, character by character |
| JsonReader.Reader.ParseStringToStream | src/3rdparty/rapidjson/reader.h:840-905 | Escapes, control characters and the closing quote, as the string grammar has them |
| JsonReader.Reader.ParseUnicode | src/3rdparty/rapidjson/reader.h:865-883 | A \u escape, or a surrogate pair of them that begins with a high one, as UTF-8 |
| JsonReader.Reader.ParseHex4 | src/3rdparty/rapidjson/reader.h:755-774 | Four hexadecimal digits of either case, or the error |
| JsonReader.Reader.Digits32 | src/3rdparty/rapidjson/reader.h:1159-1184 | The 32-bit accumulator never wraps, and stops exactly where the next digit would pass 2^32 - 1, or 2^31 after a minus |
| JsonReader.Reader.Digits64 | src/3rdparty/rapidjson/reader.h:1206-1229 | The 64-bit accumulator never wraps, and stops exactly where the next digit would pass 2^64 - 1, or 2^63 after a minus |
| JsonReader.Reader.ParseIntPart | src/3rdparty/rapidjson/reader.h:1149-1229 | For an integer part of any length: the exact value in the intended kind - Int to -2^31, Int64 to -2^63, Uint to 2^32 - 1, Uint64 to 2^64 - 1 - and a double exactly beyond |
| JsonReader.Reader.ParseNumber | src/3rdparty/rapidjson/reader.h:1133-1388 | Sign, integer part, fraction and exponent, in the source's order of errors |
| JsonDocument.ReplayRebuilds | src/3rdparty/rapidjson/document.h:1768-1805 | Replaying Accept of any value into a document adds exactly that value to its stack: structure, member order and duplicate names kept |
| JsonDocument.OneRoot | src/3rdparty/rapidjson/document.h:2155-2165 | The events of every accepted text leave exactly one value on the stack, with honest type flags throughout: the assertion after parsing always holds |
| JsonDocument.ValueBuilds | src/3rdparty/rapidjson/reader.h:588-702 | The events of any parsed value add exactly one value to any stack, so counts and nesting always fit the handler; its type flags are honest, so that the replay and the deep copy apply to it |
| JsonDocument.LiteralKept | src/3rdparty/rapidjson/reader.h:1133-1388 | An integer literal reaches the tree as exactly its value with the right type flags between -2^63 and 2^64 - 1, and as a double exactly beyond |
| JsonDocument.ConstructorsHonest | src/3rdparty/rapidjson/document.h:634-670 | Each integer constructor sets exactly the flags of the integer types that can hold its value |
| JsonDocument.Document.ParseStream | src/3rdparty/rapidjson/document.h:2155-2165 | With either parser: accepted exactly when the grammar accepts, the one root is taken, with honest type flags, the stack is left empty; a rejected text leaves the value alone |
| JsonDocument.Document.EndObject | src/3rdparty/rapidjson/document.h:2361-2365 | Pops the names and values into the object below them |
| JsonDocument.Document.EndArray | src/3rdparty/rapidjson/document.h:2369-2373 | Pops the elements into the array below them |
| JsonDocument.Document.Receive | src/3rdparty/rapidjson/document.h:2333-2373 | Each handler method does to the stack what the event means |
| JsonDocument.Document.Accept | src/3rdparty/rapidjson/document.h:1768-1805 | Accept into a document pushes exactly the value |
| JsonDocument.DeepCopy | src/3rdparty/rapidjson/document.h:2408-2431 | The deep copy is structurally identical |
| PointerText.StringifyParse | src/3rdparty/rapidjson/pointer.h:802-972 | Stringify(Parse(s)) is s for every valid s that is not a fragment |
| PointerText.ParseStringify | src/3rdparty/rapidjson/pointer.h:802-972 | Parse(Stringify(p)) is p, names and indices, in plain and fragment form, for every pointer whose indices are those of its names |
| PointerText.StringifiesWhen | src/3rdparty/rapidjson/pointer.h:941-972 | Plain Stringify always succeeds; the fragment form succeeds exactly when every name is well-formed UTF-8 |
| PointerText.IndexExact | src/3rdparty/rapidjson/pointer.h:905-917 | The index is the number a name writes exactly when that number is below 2^32 - 1 |
| PointerText.IndexIs | src/3rdparty/rapidjson/pointer.h:905-917 | The index of every canonical name, however long: the number modulo 2^32 when no step of the conversion lowers the wrapped value, else the invalid index |
| PointerText.StringOnlyWhen | src/3rdparty/rapidjson/pointer.h:905-917 | A number too large for an index is kept as a string only exactly when some step of the conversion lowers the wrapped value or it ends at 2^32 - 1; every other one gets a valid index that is not its number |
| PointerText.WrapUndetected | src/3rdparty/rapidjson/pointer.h:905-917 | A concrete name whose conversion wraps without the overflow test noticing |
| PointerText.TokensFit | src/3rdparty/rapidjson/pointer.h:813-820 | A valid text has as many tokens as solidi, so the token array allocated by counting them fits |
| PointerText.UnitBack | src/3rdparty/rapidjson/pointer.h:838-895 | What Stringify writes for a character, Parse reads back as that character, percent-encoding included |
| PointerText.Pointer.Parse | src/3rdparty/rapidjson/pointer.h:802-935 | Parse computes the tokens, or the error and its offset; nothing is ever written past the input length in the name buffer, not even on a rejected text |
| PointerText.Pointer.ParsePercent | src/3rdparty/rapidjson/pointer.h:840-862 | One percent-encoded UTF-8 character; an encoded ~ still starts an escape |
| PointerText.Pointer.Index | src/3rdparty/rapidjson/pointer.h:895-917 | The index conversion with its 32-bit wrap and its overflow test |
| PointerText.Pointer.Stringify | src/3rdparty/rapidjson/pointer.h:941-972 | Stringify writes the pointer's text, or fails |
| PointerTree.CreateThenGet | src/3rdparty/rapidjson/pointer.h:401-507 | For any tokens, also appended names and user token arrays: Get after Create finds the node Create returned exactly when each - applied to an array carries the appended index; with no index at - exactly when no - is applied to an array |
| PointerTree.DashMissed | src/3rdparty/rapidjson/pointer.h:401-507 | The empty array and the token - : Create appends a Null that Get with the same token does not find |
| PointerTree.AlreadyExist | src/3rdparty/rapidjson/pointer.h:401-447 | For any tokens: alreadyExist is true exactly when Get resolved before, by no - on an array; then nothing changes and the same node is returned, else a Null |
| PointerTree.OthersKept | src/3rdparty/rapidjson/pointer.h:401-447 | Every pointer that resolved before, and not through a node whose type is replaced, resolves to the same node with the same value, unless the created node lies in it |
| PointerTree.SurvivesWhen | src/3rdparty/rapidjson/pointer.h:401-447 | Exactly which earlier pointers survive Create, where equal names have equal indices, as in parsed pointers: those that do not run strictly through a node whose type is replaced; the others no longer resolve |
| PointerTree.ThroughReplaced | src/3rdparty/rapidjson/pointer.h:401-447 | For any tokens, what a pointer through a replaced node finds: at most what Create has just made there, and only by the very name Create used |
| PointerTree.OpenKeeps | src/3rdparty/rapidjson/pointer.h:407-440 | A node that keeps its type keeps its children, under their names and indices |
| PointerTree.Tree.Create | src/3rdparty/rapidjson/pointer.h:401-447 | The walk that retypes, pads and appends computes the recursive creation |
| PointerTree.Tree.Get | src/3rdparty/rapidjson/pointer.h:479-507 | Finds the node the tokens lead to; otherwise says at which token the walk stopped, and why there |
| PointerTree.Tree.FindMember | src/3rdparty/rapidjson/document.h:1153-1160 | The first member of that name, or the end |
| Utf8.ValidateAll | src/3rdparty/rapidjson/encodings.h:178-202 | Repeated Validate accepts exactly the strings of RFC 3629 section 4, and has then copied each octet once |
| Utf8.CountStringCodePoint | src/3rdparty/rapidjson/internal/strfunc.h:37-50 | Repeated Decode accepts exactly the same strings, and yields the only code point sequence they encode |
| Utf8.TableIsGrammar | src/3rdparty/rapidjson/encodings.h:204-220 | The class table with its masks accepts exactly the UTF8-char of RFC 3629 section 4 |
| Utf8.Validate | src/3rdparty/rapidjson/encodings.h:178-202 | One Validate, on a plain or a percent-encoded stream: true exactly on a UTF8-char, which is then taken and written |
| Utf8.Decode | src/3rdparty/rapidjson/encodings.h:145-176 | One Decode: true exactly on a UTF8-char, with its code point |
| Utf8.EncodeDecode | src/3rdparty/rapidjson/encodings.h:101-121 | Every scalar value encodes to one UTF8-char that decodes to it |
| Utf8.DecodeEncode | src/3rdparty/rapidjson/encodings.h:101-121 | Every UTF8-char stands for a scalar value that encodes to it |
| Utf8.WellFormedEncodes | src/3rdparty/rapidjson/encodings.h:101-121 | Every well-formed string is the encoding of some sequence of scalar values |
| Utf8.EncodesWellFormed | src/3rdparty/rapidjson/encodings.h:101-121 | Every concatenation of encodings is well-formed |
| Utf8.EncodesInjective | src/3rdparty/rapidjson/encodings.h:101-121 | No two sequences of scalar values have the same encoding |
| Utf8.InputStream.Take | src/3rdparty/rapidjson/pointer.h:991-1011 | A plain stream gives its units then NUL; a percent-decoding one gives the octet of a %XY triplet or turns invalid |
| Utf8.OutputStream.Put | src/3rdparty/rapidjson/pointer.h:1028-1034 | A percent-encoding stream writes each octet as an upper-case triplet |
| Utf16.ValidateAll | src/3rdparty/rapidjson/encodings.h:324-337 | Repeated UTF-16 Validate accepts exactly the texts whose surrogates pair, and copies each unit once |
| Utf16.DecodeAll | src/3rdparty/rapidjson/encodings.h:306-322 | Repeated UTF-16 Decode accepts the same texts, and yields the only code points they encode |
| PoolAllocator.Pool.Malloc | src/3rdparty/rapidjson/allocators.h:175-188 | A new block of the aligned size, inside the head chunk and apart from all earlier blocks, whose bytes stay; NULL exactly for size 0 or when a needed chunk is refused |
| PoolAllocator.Pool.Realloc | src/3rdparty/rapidjson/allocators.h:190-222 | Keeps the contents up to the smaller size, zero included, and the bytes of all other blocks; grows in place exactly for the last block of the head chunk with room left; shrinking does nothing |
| PoolAllocator.Pool.Extend | src/3rdparty/rapidjson/allocators.h:205-212 | Growth in place happens exactly for the last block of the head chunk that fits, and stays clear of every other block |
| PoolAllocator.Pool.AddChunk | src/3rdparty/rapidjson/allocators.h:236-249 | The new chunk goes in front, with memory of its own |
| PoolAllocator.Pool.Size | src/3rdparty/rapidjson/allocators.h:165-173 | Size is exactly the aligned bytes of all blocks handed out |
| PoolAllocator.Pool.Capacity | src/3rdparty/rapidjson/allocators.h:155-163 | Capacity is the chunks' total, and at least Size |
| PoolAllocator.Pool.Clear | src/3rdparty/rapidjson/allocators.h:144-153 | Only the user's buffer is left, empty |
| PoolAllocator.Pool.LastBlock | src/3rdparty/rapidjson/allocators.h:205-212 | No block lies past the last block of the head chunk |
| PoolAllocator.TotalGrows | src/3rdparty/rapidjson/allocators.h:205-211 | Growing one block adds exactly its growth to the total handed out |
| SpinLock.MutualExclusion | src/SVMisc/spin_lock.h:17-42 | Over every interleaving of any number of threads, spurious failures and stale loads included: never two writers, never a writer with a reader, m_readCount counts the counted readers, m_writeLock is true exactly while a writer is inside |
| SpinLock.NextInv | src/SVMisc/spin_lock.h:17-42 | Every atomic step of any thread keeps the invariant |
| SpinLock.NobodyPasses | src/SVMisc/spin_lock.h:18-33 | While a writer holds the turnstile no reader or writer enters, and the reader count only falls |
| SpinLock.WriterEnters | src/SVMisc/spin_lock.h:24-27 | Once the holders have left, the writer's next non-spurious CAS succeeds exactly when its isBlock is not a leftover; after a leftover, the reload makes the next one succeed |
| SpinLock.LeftoverReached | src/SVMisc/spin_lock.h:24-27 | A run from the free lock after which nobody is inside and a writer's next CAS fails without being spurious, because its isBlock is a leftover |
| SpinLock.SomeoneProgresses | src/SVMisc/spin_lock.h:17-42 | Unless all threads are outside, some thread's next step brings it further, without help from chance |
| SpinLock.NoDeadlock | src/SVMisc/spin_lock.h:17-42 | From every reachable state there is a run of threads already asking, with no spurious failure, that serves everyone and leaves the lock free |
| SpinLock.Lock.Run | src/SVMisc/spin_lock.h:17-48 | The lock object stepped by any schedule follows the state machine and is exclusive throughout |
| SpinLock.Lock.CasReadLock | src/SVMisc/spin_lock.h:18-22 | The turnstile's weak CAS |
| SpinLock.Lock.CasWriteLock | src/SVMisc/spin_lock.h:24-27 | The gate's weak CAS, and the way back to the reload |
| SpinLock.Lock.Unlock | src/SVMisc/spin_lock.h:36-42 | unlock: one atomic decrement of m_readCount, or one store to m_writeLock |
| SpinLock.UnlockUndoes | src/SVMisc/spin_lock.h:17-42 | lock then unlock of the same action, from a lock that is free for it, leaves every field and every thread as before |
| SpinLock.LockAlone | src/SVMisc/spin_lock.h:17-34 | A thread alone at a lock that is free for its action gets in, and only the counter or the flag of that action changes |
| BinTree.Map.Find | src/SVArduino/sv_binTree.h:53-62 | The data of the first entry inserted under the key, duplicates included; NULL exactly when there is none |
| BinTree.Map.Insert | src/SVArduino/sv_binTree.h:29-51 | The array gains one entry at its end and keeps the rest; the tree stays a search tree over the same nodes |
| BinTree.Map.Hangs | src/SVArduino/sv_binTree.h:29-39 | Every array entry but the first hangs in the tree below an earlier one, on the side its key asks for |
| BinTree.Map.At | src/SVArduino/sv_binTree.h:43-46 | The i-th inserted data, NULL exactly outside |
| BinTree.StrCmpZero | src/SVArduino/sv_binTree.h:29-62 | strcmp is zero exactly on equal strings |
| Recorder.PacketHoldsSamples | src/SVArduino/sv_client.cpp:281-321 | Over any run of adds, refused adds, ticks and lost connections: a packet goes out only at ticks 10k+9, and holds for each signal, in slot j, the sample-and-hold value of tick 10k+j, zero before the signal existed |
| Recorder.RunMatches | src/SVArduino/sv_client.cpp:167-321 | After any run, each slot of each record holds the sample of the last tick that used it, or the value just added |
| Recorder.TickMatches | src/SVArduino/sv_client.cpp:298-311 | One tick samples every signal, across the wrap from slot 9 to slot 0 |
| Recorder.HearMatches | src/SVArduino/sv_client.cpp:167-195 | One accepted value becomes its signal's pending sample, the last one added winning |
| Recorder.Client.AddValue | src/SVArduino/sv_client.cpp:167-195 | Accepted exactly when connected and the name is known, or is good and a 128th record or an earlier one; then stored in the current slot |
| Recorder.Client.DoSendCyc | src/SVArduino/sv_client.cpp:292-321 | A tick of the client is the tick of the state machine, packet and connection included |
| Recorder.Client.SendData | src/SVArduino/sv_client.cpp:255-284 | The packet has every record in insertion order with all ten slots |
| Recorder.Client.ConnectOfCom | src/SVArduino/sv_client.cpp:126-145 | Connects exactly when connected already or the module name is good |
| Logger.EveryRun | src/SVMisc/logger.h:63-146 | Over every interleaving of writers, path changes, stop and worker: the drains cut what was written into consecutive pieces, each hands out the newest 99 of its piece in order, nothing is handed out twice, and every message was handed out, is pending, or was overwritten |
| Logger.StopDrains | src/SVMisc/logger.h:47-55 | After the destructor sets stop, five steps of the worker end it, whatever is written or renamed in between: everything written before stop has been drained and everything drained handed to writeBatch; when nothing more is written, all that was pending or in flight is handed out in order and nothing is left |
| Logger.WroteCut | src/SVMisc/logger.h:63-71 | A write keeps pending the newest 99 written since the last drain |
| Logger.WroteConserved | src/SVMisc/logger.h:66-71 | A write keeps the balance: every message was handed out, is pending, or was overwritten |
| Logger.WroteLoses | src/SVMisc/logger.h:66-71 | A write loses a message exactly when 99 are pending since the last drain, and then the oldest of them, the 99th from the end of what was written since; the others stay in order |
| Logger.Logger.WriteLine | src/SVMisc/logger.h:63-73 | The ring's write, with its two indices, is that write |
| Logger.Logger.DrainLocked | src/SVMisc/logger.h:94-101 | Hands out the pending messages in order and leaves none |
| Logger.Logger.WriteCycleStep | src/SVMisc/logger.h:115-146 | Each critical section and each writeBatch of writeCycle is the worker's step |
| Logger.RingWrite | src/SVMisc/logger.h:66-71 | The slot and index arithmetic modulo 100: one more message at the end, the oldest gone exactly when the ring is full |

## Left out

- JsonText.Number: does not compute the value of a double; a double is its literal, and whether what was read so far overflows is a parameter, `Flags.huge`, because the conversion helpers are not part of this model.
- JsonReader.Reader.ParseNumber: gives a double as its literal, and takes whether it is too big from `Flags.huge`, for the same reason.
- SpinLock.MutualExclusion: does not model 32-bit wrap-around of m_readCount, because it takes 2^31 readers at once; yield is no step, since it changes nothing.
- PoolAllocator.Pool.Malloc: does not model overflow of size_t sums, nor the alignment to 4 that rapidjson.h:275 chooses on 32-bit builds (the model aligns to 8); whether the base allocator has memory is a parameter.
- PointerTree.Tree.Create: works on a value and a path of child numbers instead of raw pointers, so it does not capture pointers into the tree that a Reserve invalidates; memory for padding is unbounded.
- PointerText.Pointer.Parse: takes lengths as unbounded, so it does not model the cast of a token length to 32 bits.
- Recorder.Client.AddValue: takes one type per name and a slot as a typed value, so it does not capture the bytes other members of the union keep, nor an interrupt in the middle of the call.
- Recorder.Client.SendData: whether the line is up is a parameter; the byte layout between =begin= and =end= is not modelled.
- Recorder.Client.ConnectOfCom: the Ethernet and WiFi variants differ in I/O only and are not modelled.
- Logger.Logger.WriteLine: the timestamp is part of the message; directories and files are left out, the model stops at the batch handed to writeBatch.
- RedBlackTree.Tree.Insert: the comparison function is the order of integer keys; RB_AUGMENT is the empty macro it is by default; running time is bounded only through the height.
- SplayTree.Tree.SplayMinMax: the argument 0, on which the source loops forever, is not a call; amortised cost is not modelled.
- JsonDocument.Document.ParseStream: strings are sequences of code units without short-string storage or reference flags, and the handler always continues.
- Parse flags other than comments, trailing commas, stop-when-done and iterative: in situ parsing, SIMD scanning, encoding validation, NaN and Inf, numbers as strings, full precision.
- Parse error offsets of the JSON reader; those of the pointer parser are modelled.
- UTF-32, byte-order variants and AutoUTF of encodings.h, which repeat the same shape with easier members.
- Pointer operations built on Get and Create: Set, Swap, Erase and the default-value accessors.
- RB_FOREACH_SAFE, the reverse iterations and SPLAY_FOREACH, which add nothing to Next, Prev and Foreach.
- schema.h, writer.h and prettywriter.h, which rest on code that is not part of this model.
- The Qt dialogs, servers, database and web code, front.h, timer_delay.h, MsTimer2 and the Lua bridge: I/O, user interface, or easier members.
