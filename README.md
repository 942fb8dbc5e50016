# Lox, both interpreters' cores, in Dafny

This project models the deterministic core of the two Lox implementations in
the repository and proves properties of that model.

**jlox (Java)**
- the scanner, which turns source text into tokens with line numbers;
- the recursive-descent parser, with its precedence levels, `for` desugaring and panic-mode recovery;
- the resolver, which computes lexical distances and reports scope errors;
- the chain of environments;
- functions and instances at run time;
- the two printers: a parenthesised prefix one and a reverse-Polish one.

**clox (C)**
- the open-addressing hash table with tombstones;
- FNV-1a hashing and string interning;
- the bytecode chunk with its run-length line table;
- the growable value array and value equality;
- the value stack;
- the mark-and-sweep collector.

## Form of the model

Code that changes state step by step is imperative Dafny:
- The scanner, parser, resolver, environments and runtime objects are classes whose fields play the Java fields.
- The hash table, chunk, value array, stack and collector are classes over arrays and sequences.

Each method is proved against a specification function or a predicate over its state:
- `Scanner.ScanTokens` produces `ScanFrom(...)`.
- Every `Parser` method produces the outcome of the grammar function of its rule.
- Every `Resolver` method produces the state that the resolution function computes.
- `Table` methods state their new `Contents()` map.
- `Collector` methods state the marks and the object list.

The properties are lemmas about those functions.

Each module has a fixed job:

| modules | what they hold |
|---|---|
| `LoxScanner`, `LoxGrammar` with `LoxGrammarLog` (the report log) and `LoxGrammarProps`, `LoxResolution` and `LoxResolutionProps`, `LoxEnvironment` and `LoxEnvironmentProps`, `LoxRuntime` and `LoxRuntimeProps` | the specification functions and the properties proved about them |
| `LoxParser`, `LoxResolver` | the imperative classes |
| `LoxAstPrinter`, `LoxRpnPrinter` | the two printers, which are pure functions (with props in `LoxAstPrinterProps`) |
| `LoxText` | string joining and `String.strip()` |
| `LoxAst`, `LoxTokens` | the data model, taken from the generated node classes |
| `CloxGrow`, `CloxChunk`, `CloxValue`, `CloxVm`, `CloxObject`, `CloxTable`, `CloxMemory` | clox |

Three sources of text or values stay outside the model:

| what the source uses | how the model treats it |
|---|---|
| `Lox.error` | a log of the reports, each with its token or line and its message |
| `Double.toString` and `Token.toString` | renderer parameters |
| numbers | kept as their literal text |

## Model

| member | source | states |
|---|---|---|
| CloxGrow.GrowCapacity | clox/memory.h:9 | the new capacity exceeds the old, is at least 8, is double the old once that is 8 or more, and keeps a capacity 0 or a power of two times 8 |
| CloxGrow.Doubled | clox/memory.h:9 | eight doubled k times is at least 8 |
| CloxGrow.DoubledTwice | clox/memory.h:9 | growing a capacity of the form 8·2^k gives 8·2^(k+1) |
| CloxChunk.DecodeAll | clox/chunk.c:49-65 | decoding the run-length line table recovers every byte's line |
| CloxChunk.EncodeLinesSnoc | clox/chunk.c:49-65 | one more byte joins the last run when it is on that run's line, and otherwise starts a run at its own offset |
| CloxChunk.EncodeLinesWellFormed | clox/chunk.c:49-65 | line starts begin at offset 0, have strictly increasing offsets below the byte count, and neighbouring starts have different lines |
| CloxChunk.WellFormedLonger | clox/chunk.c:49-51 | a byte on the last run's line keeps the table well formed |
| CloxChunk.WellFormedSnoc | clox/chunk.c:61-65 | a new start at the new byte's offset, on another line, keeps the table well formed |
| CloxChunk.LineOfEncodeLines | clox/chunk.c:49-65 | the line of offset k is that of the last start at or before k, and it equals the line the byte was written with |
| CloxChunk.RunWithinCapacity | clox/chunk.c:33-37 | writes that fit both buffers change only the counts |
| CloxChunk.AsWrittenBlockMismatch | clox/chunk.c:58 | as written, nine bytes on line 1 and one byte on each of lines 2 to 9 leave a line table of capacity 16 in a block of 32 entries |
| CloxChunk.SplitRunAsWritten | clox/chunk.c:31-66 | running the as-written writes over a+b is running them over a, then over b |
| CloxChunk.RunKeepsBlock | clox/chunk.c:55-59 | with the block grown to lineStartsCapacity, the block always equals the line-table capacity |
| CloxChunk.RunKeepsCapacities | clox/chunk.c:33-37 | from initChunk's sizes, both capacities stay 0 or 8·2^k, so they change only through GROW_CAPACITY |
| CloxChunk.WriteSameLine | clox/chunk.c:49-51 | a write on the last run's line appends the byte and keeps the chunk invariant |
| CloxChunk.WriteStartsRun | clox/chunk.c:55-65 | a write on a new line appends a start whose offset is the new byte's index and keeps the invariant |
| CloxChunk.Chunk.constructor | clox/chunk.c:9-17 | count, capacity and line-start count are 0, with an empty constant pool |
| CloxChunk.Chunk.Write | clox/chunk.c:31-66 | the byte is appended and earlier bytes are unchanged; the line is appended to the byte lines; both capacities follow the corrected size step |
| CloxChunk.Chunk.WriteToRun | clox/chunk.c:31-51 | the early-return path: the byte joins the last line run and the line table is untouched |
| CloxChunk.Chunk.WriteNewRun | clox/chunk.c:31-66 | a new line start at offset count−1, with the line table grown when full |
| CloxChunk.Chunk.LinesRecovered | clox/chunk.c:49-65 | in a valid chunk, the line table gives back the line of every byte |
| CloxChunk.Chunk.AddConstant | clox/chunk.c:72-75 | the value is appended to the pool; the returned index is the pool's old length, and it holds the value |
| CloxChunk.Chunk.Free | clox/chunk.c:19-24 | the chunk is back in initChunk's state |
| CloxValue.ValuesEqual | clox/value.c:46-55 | values of different types are never equal; nil, booleans and objects (by address) compare by equality; numbers compare as doubles |
| CloxValue.ValuesEqualSymmetric | clox/value.c:46-55 | valuesEqual(a, b) equals valuesEqual(b, a) |
| CloxValue.ValuesEqualReflexive | clox/value.c:46-55 | every value equals itself except a NaN number |
| CloxValue.SignedZerosEqual | clox/value.c:50 | +0.0 and −0.0 have different bits and are equal |
| CloxValue.ValueArray.constructor | clox/value.c:13-17 | empty, capacity 0 |
| CloxValue.ValueArray.Write | clox/value.c:19-28 | the value is appended and earlier values are unchanged; a full buffer grows to GROW_CAPACITY |
| CloxValue.ValueArray.Free | clox/value.c:30-33 | empty, capacity 0 |
| CloxVm.Vm.constructor | clox/vm.c:21-23 | the stack is empty |
| CloxVm.Vm.ResetStack | clox/vm.c:17-19 | the stack is empty and the slots are kept |
| CloxVm.Vm.Push | clox/vm.c:29-32 | the stack becomes the old stack plus the value; this requires room |
| CloxVm.Vm.Pop | clox/vm.c:34-37 | returns the top value and drops it; this requires a non-empty stack |
| CloxVm.Vm.PushThenPop | clox/vm.c:29-37 | pop right after push(v) returns v and restores the stack |
| CloxObject.Fnv1aIsFold | clox/object.c:40-47 | the hash equals the first-octet-first FNV-1a fold of the standard, from offset basis 2166136261 with prime 16777619 |
| CloxObject.FnvFoldSnoc | clox/object.c:42-45 | folding one more octet is one more xor-and-multiply round |
| CloxObject.Fnv1aAppend | clox/object.c:40-47 | hashing a+b continues from the hash of a |
| CloxObject.Fnv1aVectors | clox/object.c:40-47 | "", "a" and "foobar" hash to the standard's 0x811c9dc5, 0xe40c292c and 0xbf9cf968 |
| CloxObject.HashString | clox/object.c:40-47 | the loop's result is the FNV-1a hash of the first length bytes |
| CloxObject.MatchesIsSameText | clox/table.c:158-162 | for a well-formed key, matching on length, hash and bytes is equality of text |
| CloxObject.NoMatchNoText | clox/object.c:51-53 | a failed lookup means that no interned string has the text |
| CloxObject.InternFresh | clox/object.c:29-37 | interning new text at a new address keeps the table's texts distinct |
| CloxObject.InternedLonger | clox/object.c:16-24 | linking in one more object keeps the string table interned |
| CloxObject.Heap.constructor | clox/object.c:16-24 | no objects and an empty string table |
| CloxObject.Heap.AllocateObject | clox/object.c:16-24 | a fresh address is linked in at the head of the list, and the rest of the list is unchanged |
| CloxObject.Heap.AllocateString | clox/object.c:29-37 | the new string has the given buffer and hash and is entered in the string table with nil |
| CloxObject.Heap.CopyString | clox/object.c:51-61 | returns the interned string with this text if one exists and allocates nothing; otherwise a new string with a copy, a NUL at index length and the FNV-1a hash; the table stays interned |
| CloxObject.Heap.TakeString | clox/object.c:76-86 | the same interning; a new string adopts the caller's buffer as it is |
| CloxTable.Home | clox/table.c:34 | the home bucket is below the capacity |
| CloxTable.Slot | clox/table.c:54 | the bucket d steps on, wrapping, is below the capacity |
| CloxTable.Dist | clox/table.c:33-56 | the probe distance to a bucket is below the capacity |
| CloxTable.DistOfSlot | clox/table.c:33-56 | the distance of the bucket d steps on is d |
| CloxTable.Used | clox/table.c:112-113 | the count of non-empty buckets is at most the capacity |
| CloxTable.Live | clox/table.c:78-88 | the count of key buckets is at most the used count |
| CloxTable.GapBeforeWrap | clox/table.c:33-56 | a probe with no empty bucket in d+1 steps implies at least d+2 buckets, so the probe ends |
| CloxTable.StopsBeforeWrap | clox/table.c:33-56 | a probe that has not stopped yet has a next step |
| CloxTable.StopFrom | clox/table.c:33-56 | the first step at which the probe meets the key or an empty bucket |
| CloxTable.StopAt | clox/table.c:33-56 | a probe whose first stop is step d stops there |
| CloxTable.SlotNext | clox/table.c:54 | the next step is the next bucket, wrapping to 0 |
| CloxTable.FirstTombstone | clox/table.c:39-45 | the first tombstone before step n, if any |
| CloxTable.FindSlot | clox/table.c:33-56 | the bucket findEntry picks holds the key or no key, and no empty bucket lies before it on the probe |
| CloxTable.FindSlotFinds | clox/table.c:33-56 | in a valid table, findEntry's bucket holds the key exactly when the key is present |
| CloxTable.MapOfWrite | clox/table.c:115-116 | writing bucket i replaces that bucket's pair in the map |
| CloxTable.InvariantAfterWrite | clox/table.c:115-116 | writing a non-empty entry keeps the probe invariant when a new key lands where its probe reaches it |
| CloxTable.UsedWrite | clox/table.c:112-113 | the used count changes by one only when an empty bucket is filled |
| CloxTable.EmptyExists | clox/table.c:104 | a table with fewer used buckets than buckets has an empty one |
| CloxTable.AllEmpty | clox/table.c:70-74 | an array of empty buckets is a valid table with nothing in it |
| CloxTable.StoreKey | clox/table.c:108-116 | storing into findEntry's bucket maps the key to the value, keeps the invariant, and uses one more bucket exactly when that bucket was empty |
| CloxTable.StoreTombstone | clox/table.c:129-131 | a tombstone in the key's bucket removes exactly that key, keeps the invariant, and keeps the used count |
| CloxTable.Reinsert | clox/table.c:78-88 | one step of adjustCapacity: the live entry lands in an empty bucket, and the new buckets hold the map of the old prefix |
| CloxTable.UsedZero | clox/table.c:59 | a table using no bucket holds no key |
| CloxTable.NoMatchPastGap | clox/table.c:150-168 | a probe that reaches an empty bucket without a match misses no key |
| CloxTable.RemoveWhiteStep | clox/table.c:170-177 | one step of tableRemoveWhite extends the removal of unmarked keys by one bucket |
| CloxTable.KeepMarkedUnmarked | clox/table.c:170-177 | removing the unmarked keys of all buckets is keeping the marked part of the map |
| CloxTable.Table.constructor | clox/table.c:15-19 | an empty table: count 0, capacity 0 |
| CloxTable.Table.Free | clox/table.c:21-24 | empty again, count and capacity 0 |
| CloxTable.Table.FindEntry | clox/table.c:33-56 | the probe loop returns FindSlot's bucket |
| CloxTable.Table.Get | clox/table.c:58-66 | found iff the key is in the table; the result is its value, else the value passed in |
| CloxTable.Table.AdjustCapacity | clox/table.c:68-96 | the same map in a fresh array at the new capacity; tombstones are dropped and count becomes the live count |
| CloxTable.Table.Rehash | clox/table.c:68-96 | the new array holds the old map with no tombstones and reports how many keys it holds |
| CloxTable.Table.Set | clox/table.c:102-118 | the map is updated with key := value; returns true iff the key was absent; capacity grows by GROW_CAPACITY exactly when 4(count+1) > 3·capacity; afterwards 4·count ≤ 3·capacity and capacity is 0 or 8·2^k; without growth count rises by one exactly when findEntry's bucket was empty (not a tombstone), and after growth count is the number of live keys, plus one for a new key |
| CloxTable.Table.Store | clox/table.c:108-117 | with room for one more bucket, the same update without resizing: only findEntry's bucket changes, to (key, value), and count rises by one exactly when that bucket was empty, not a tombstone |
| CloxTable.Table.Delete | clox/table.c:122-133 | the map loses the key; returns true iff the key was present; exactly one bucket (the key's) becomes a tombstone and count is unchanged |
| CloxTable.Table.AddAll | clox/table.c:139-146 | the target map is updated with every key of the source |
| CloxTable.Table.StoreEntry | clox/table.c:141-144 | one bucket of tableAddAll: a key is set in the target, and a tombstone or empty bucket changes nothing |
| CloxTable.Table.FindString | clox/table.c:150-168 | Some means a key of the table with that length, hash and bytes; None means no key matches |
| CloxTable.Table.RemoveWhite | clox/table.c:170-177 | the map keeps exactly the keys whose objects are marked |
| CloxMemory.MarkPtrsMarks | clox/memory.c:52-71 | marking a list of pointers marks every non-NULL one and nothing else, and pushes exactly the newly marked objects in order |
| CloxMemory.MarkPtrsAppend | clox/memory.c:78-82 | marking a+b is marking a, then b |
| CloxMemory.ExtendsTrans | clox/memory.c:52-71 | "marks more objects" is transitive |
| CloxMemory.ClosedHasReachable | clox/memory.c:182-209 | a set that contains the roots and is closed under references contains every reachable object |
| CloxMemory.MarkRootsStart | clox/memory.c:182-202 | from a clean slate, markRoots marks exactly the roots, all gray, so the tricolour invariant holds |
| CloxMemory.NothingNewNoPush | clox/memory.c:52-71 | a marking step that marks nothing new pushes nothing |
| CloxMemory.BlackStaysBlack | clox/memory.c:52-71 | an object black after a marking step was black before it |
| CloxMemory.BlackenKeepsTriColor | clox/memory.c:85-133 | popping an object and marking all its references keeps the tricolour invariant: no black object refers to a white one |
| CloxMemory.TracePop | clox/memory.c:204-209 | one round of traceReferences keeps the invariant and marks only reachable objects; something new is marked or the stack shrinks |
| CloxMemory.MarkedIsReachable | clox/memory.c:182-209 | marks that hold only reachable objects and all of them are the reachable set |
| CloxMemory.KeepOnlyMembers | clox/memory.c:211-230 | the kept list holds exactly the listed objects that are kept, in order |
| CloxMemory.KeepOnlyNoDuplicates | clox/memory.c:211-230 | the kept list of a list without duplicates has none |
| CloxMemory.Collector.constructor | clox/memory.c:29-50 | an empty heap, no gray stack, with the given threshold |
| CloxMemory.Collector.MarkObject | clox/memory.c:52-71 | NULL and marked objects are left alone; any other object is marked and pushed, and the gray stack grows by GROW_CAPACITY when full |
| CloxMemory.Collector.PushGray | clox/memory.c:60-70 | the object is pushed on the gray stack, which grows when full |
| CloxMemory.Collector.MarkValue | clox/memory.c:74-76 | only an object value is marked; numbers, booleans and nil change nothing |
| CloxMemory.Collector.MarkArray | clox/memory.c:78-82 | every object value of the array is marked, in order |
| CloxMemory.Collector.MarkTable | clox/table.c:179-185 | each bucket's key and then its value is marked, bucket by bucket |
| CloxMemory.Collector.MarkEntry | clox/table.c:181-183 | one bucket: the key, then the value |
| CloxMemory.Collector.MarkEach | clox/memory.c:109-111 | every pointer of a list is marked in order |
| CloxMemory.Collector.BlackenObject | clox/memory.c:85-133 | every reference the object holds, by kind, is marked |
| CloxMemory.Collector.MarkThenTable | clox/memory.c:91-102 | a class's name and then its methods, or an instance's class and then its fields |
| CloxMemory.Collector.MarkThenEach | clox/memory.c:105-113 | a closure's function and then its upvalues |
| CloxMemory.Collector.MarkThenArray | clox/memory.c:115-120 | a function's name and then its constants |
| CloxMemory.Collector.MarkRoots | clox/memory.c:182-202 | the stack slots, frame closures, open upvalues, globals, compiler roots and "init" are marked |
| CloxMemory.Collector.TraceReferences | clox/memory.c:204-209 | the gray stack ends empty; the marked objects are closed under references; only reachable objects are marked |
| CloxMemory.Collector.TraceStep | clox/memory.c:205-208 | one pop and blacken keeps the tricolour invariant |
| CloxMemory.Collector.FreeObject | clox/memory.c:135-180 | the object leaves the heap and its bytes are given back |
| CloxMemory.Collector.Sweep | clox/memory.c:211-230 | the list keeps exactly the marked objects in their order; their marks are cleared; the rest are freed and their bytes given back |
| CloxMemory.Collector.SweepWalk | clox/memory.c:211-230 | the same, stated on the list, the heap and the marks |
| CloxMemory.Collector.Mark | clox/memory.c:232-239 | after markRoots and traceReferences, the marks are exactly the objects reachable from the roots |
| CloxMemory.Collector.CollectGarbage | clox/memory.c:232-249 | exactly the reachable objects survive, in list order; unmarked strings leave the string table; nextGC = 2 × bytesAllocated |
| CloxMemory.Collector.SetThreshold | clox/memory.c:16 | nextGC is GC_HEAP_GROW_FACTOR (2) times the bytes allocated |
| CloxMemory.Collector.Reallocate | clox/memory.c:29-50 | bytesAllocated changes by newSize−oldSize; only a growing request past the threshold collects; the result is NULL iff newSize is 0 |
| CloxMemory.Collector.FreeObjects | clox/memory.c:251-260 | every object is freed and the heap is empty |
| CloxMemory.FreeList | clox/memory.c:253-258 | freeObject on each object of the list empties those objects from the heap and returns their bytes |
| CloxMemory.SweepList | clox/memory.c:211-230 | the unlink-while-walking loop keeps the marked objects, clears their marks and frees the rest |
| CloxMemory.SweepStart | clox/memory.c:212-213 | the walk's state at the head of the list |
| CloxMemory.SweepKeep | clox/memory.c:215-218 | a marked object stays in the list and loses its mark |
| CloxMemory.SweepFree | clox/memory.c:219-228 | an unmarked object is unlinked from its predecessor or from the head, and freed |
| CloxMemory.SweepEnd | clox/memory.c:214 | at the end of the list, the walk has kept KeepOnly(list, marks) |
| LoxTokens.KeywordFound | jlox/src/com/craftinginterpreters/lox/Scanner.java:20-39 | every one of the 16 keyword types is found in the table under its reserved word |
| LoxTokens.KeywordOnlyReserved | jlox/src/com/craftinginterpreters/lox/Scanner.java:20-39 | a word found in the table is the reserved word of the type it maps to |
| LoxTokens.KeywordType | jlox/src/com/craftinginterpreters/lox/Scanner.java:20-39 | whatever the table gives for a word is one of the 16 keyword types |
| LoxScanner.RunEnd | jlox/src/com/craftinginterpreters/lox/Scanner.java:176 | the end of a run lies within the source and everything before it satisfies the predicate |
| LoxScanner.CommentEnd | jlox/src/com/craftinginterpreters/lox/Scanner.java:141-157 | the end of a block comment lies within the source |
| LoxScanner.RunEndUnique | jlox/src/com/craftinginterpreters/lox/Scanner.java:176 | a run that ends at j ends at RunEnd |
| LoxScanner.CommentEndUnique | jlox/src/com/craftinginterpreters/lox/Scanner.java:141-157 | the comment ends just after the first star-slash |
| LoxScanner.ScanFromUnfold | jlox/src/com/craftinginterpreters/lox/Scanner.java:45-54 | scanning from pos is scanning one lexeme, then the rest |
| LoxScanner.ScanOneSteps | jlox/src/com/craftinginterpreters/lox/Scanner.java:56-118 | every lexeme consumes at least one character; the line grows by its line feeds; a token's lexeme is exactly source[start..current); the token carries the line and is never EOF |
| LoxScanner.ScanFromShape | jlox/src/com/craftinginterpreters/lox/Scanner.java:45-54 | the token list ends in exactly one EOF, with lexeme "", on the final line, and token lines never decrease |
| LoxScanner.ScanAllShape | jlox/src/com/craftinginterpreters/lox/Scanner.java:45-54 | the EOF is on line 1 plus the number of line feeds in the source, and it is the only EOF |
| LoxScanner.ScanAll | jlox/src/com/craftinginterpreters/lox/Scanner.java:45-54 | scanTokens on a fresh scanner ends with exactly one EOF, with lexeme "", on line 1 plus the number of line feeds |
| LoxScanner.IsDigit | jlox/src/com/craftinginterpreters/lox/Scanner.java:228-230 | a digit is never NUL and never a letter |
| LoxScanner.IsAlpha | jlox/src/com/craftinginterpreters/lox/Scanner.java:232-236 | a letter or underscore is never the NUL that peek gives at the end |
| LoxScanner.IsAlphaNumeric | jlox/src/com/craftinginterpreters/lox/Scanner.java:238-240 | never NUL, so an identifier run stops at the end of the source |
| LoxScanner.CharClasses | jlox/src/com/craftinginterpreters/lox/Scanner.java:228-240 | the digits are exactly "0123456789", and an identifier character is a letter, underscore or digit |
| LoxScanner.TwoCharMunch | jlox/src/com/craftinginterpreters/lox/Scanner.java:71-82 | `!`, `=`, `<` and `>` make the two-character token exactly when `=` follows |
| LoxScanner.WhitespaceMakesNothing | jlox/src/com/craftinginterpreters/lox/Scanner.java:95-102 | blanks, tabs and carriage returns make nothing; a line feed makes nothing but the next line |
| LoxScanner.LineCommentMakesNothing | jlox/src/com/craftinginterpreters/lox/Scanner.java:84-86 | a line comment makes nothing and stops before the line feed |
| LoxScanner.StringLiteral | jlox/src/com/craftinginterpreters/lox/Scanner.java:121-138 | a string's literal is the text strictly between the quotes, and it is on the closing quote's line |
| LoxScanner.UnterminatedString | jlox/src/com/craftinginterpreters/lox/Scanner.java:127-130 | a string with no closing quote reports "Unterminated string." on the last line and adds no token |
| LoxScanner.BlockComment | jlox/src/com/craftinginterpreters/lox/Scanner.java:141-157 | a block comment is consumed through the first star-slash and makes nothing |
| LoxScanner.UnterminatedComment | jlox/src/com/craftinginterpreters/lox/Scanner.java:150-153 | an unclosed block comment reports "Unterminated multi-line comment." |
| LoxScanner.NumberLiteral | jlox/src/com/craftinginterpreters/lox/Scanner.java:160-173 | a number is the longest number-shaped text: digits, then a dot with digits only when a digit follows the dot |
| LoxScanner.NumberEndShape | jlox/src/com/craftinginterpreters/lox/Scanner.java:160-173 | the number's text has the number shape |
| LoxScanner.IdentifierOrKeyword | jlox/src/com/craftinginterpreters/lox/Scanner.java:175-182 | the longest alphanumeric run becomes its keyword type when reserved, else IDENTIFIER |
| LoxScanner.UnexpectedCharacter | jlox/src/com/craftinginterpreters/lox/Scanner.java:113-116 | any other character is reported as unexpected and skipped |
| LoxScanner.TrailingDotIsSeparate | jlox/src/com/craftinginterpreters/lox/Scanner.java:165 | "1234." scans as NUMBER DOT EOF |
| LoxScanner.LeadingDotIsSeparate | jlox/src/com/craftinginterpreters/lox/Scanner.java:108-110 | ".1234" scans as DOT NUMBER EOF |
| LoxScanner.NumberThenDot | jlox/src/com/craftinginterpreters/lox/Scanner.java:160-173 | digits with a final dot scan as NUMBER DOT EOF |
| LoxScanner.DotThenNumber | jlox/src/com/craftinginterpreters/lox/Scanner.java:160-173 | a dot followed by digits scans as DOT NUMBER EOF |
| LoxScanner.UnclosedStringReported | jlox/src/com/craftinginterpreters/lox/Scanner.java:127-130 | an unclosed string gives one report on line 1 and only EOF |
| LoxScanner.Scanner.constructor | jlox/src/com/craftinginterpreters/lox/Scanner.java:41-43 | the scanner starts at position 0 on line 1 with no tokens |
| LoxScanner.Scanner.IsAtEnd | jlox/src/com/craftinginterpreters/lox/Scanner.java:224-226 | true exactly when no character of the source is left |
| LoxScanner.Scanner.Peek | jlox/src/com/craftinginterpreters/lox/Scanner.java:192-195 | the next character, or NUL at the end |
| LoxScanner.Scanner.PeekNext | jlox/src/com/craftinginterpreters/lox/Scanner.java:198-201 | the character after the next, or NUL when there is none |
| LoxScanner.Scanner.Advance | jlox/src/com/craftinginterpreters/lox/Scanner.java:186-188 | returns the next character and moves past it |
| LoxScanner.Scanner.Match | jlox/src/com/craftinginterpreters/lox/Scanner.java:205-211 | consumes the next character exactly when it is the expected one |
| LoxScanner.Scanner.AddToken | jlox/src/com/craftinginterpreters/lox/Scanner.java:215-222 | appends a token whose lexeme is source[start..current), on the current line |
| LoxScanner.Scanner.StringBody | jlox/src/com/craftinginterpreters/lox/Scanner.java:122-125 | stops at the closing quote or the end, counting line feeds |
| LoxScanner.Scanner.ScanString | jlox/src/com/craftinginterpreters/lox/Scanner.java:121-138 | takes the string step of the specification |
| LoxScanner.Scanner.MultiLineComment | jlox/src/com/craftinginterpreters/lox/Scanner.java:141-157 | takes the comment step |
| LoxScanner.Scanner.Digits | jlox/src/com/craftinginterpreters/lox/Scanner.java:160-168 | stops at the end of the digit run |
| LoxScanner.Scanner.ScanNumber | jlox/src/com/craftinginterpreters/lox/Scanner.java:160-173 | takes the number step |
| LoxScanner.Scanner.ScanIdentifier | jlox/src/com/craftinginterpreters/lox/Scanner.java:175-182 | takes the identifier step |
| LoxScanner.Scanner.LineComment | jlox/src/com/craftinginterpreters/lox/Scanner.java:84-86 | stops before the line feed and adds nothing |
| LoxScanner.Scanner.OneOrEqual | jlox/src/com/craftinginterpreters/lox/Scanner.java:71-82 | a two-character token when `=` follows, else the one-character token |
| LoxScanner.Scanner.ScanToken | jlox/src/com/craftinginterpreters/lox/Scanner.java:56-118 | the scanner's new state is the one-lexeme step ScanOne from the old one |
| LoxScanner.Scanner.ScanNext | jlox/src/com/craftinginterpreters/lox/Scanner.java:46-49 | the tokens and reports so far plus the scan of the rest are unchanged by one turn, which consumes one lexeme |
| LoxScanner.Scanner.ScanTokens | jlox/src/com/craftinginterpreters/lox/Scanner.java:45-54 | the result is the old tokens plus ScanFrom from the current position, ending in EOF; the error log grows by ScanFrom's reports |
| LoxGrammar.Advance | jlox/src/com/craftinginterpreters/lox/Parser.java:455-458 | moves one token on, except at EOF, where it stays put |
| LoxGrammar.Consume | jlox/src/com/craftinginterpreters/lox/Parser.java:442-446 | on success exactly one token is consumed; a throw has a report |
| LoxGrammar.ExpressionRule | jlox/src/com/craftinginterpreters/lox/Parser.java:217-219 | a parsed expression consumed a token; a ParseError was reported; the position never goes back |
| LoxGrammar.AssignmentRule | jlox/src/com/craftinginterpreters/lox/Parser.java:239-261 | the same progress; the targets are stated by AssignmentTargets |
| LoxGrammar.TernaryRule | jlox/src/com/craftinginterpreters/lox/Parser.java:264-275 | the same progress; the missing `:` is stated by TernaryColonReported |
| LoxGrammar.TernaryBranches | jlox/src/com/craftinginterpreters/lox/Parser.java:266-273 | the same progress |
| LoxGrammar.OrRule | jlox/src/com/craftinginterpreters/lox/Parser.java:277-287 | the same progress |
| LoxGrammar.OrLoop | jlox/src/com/craftinginterpreters/lox/Parser.java:280-284 | never goes back; a throw has a report |
| LoxGrammar.AndRule | jlox/src/com/craftinginterpreters/lox/Parser.java:289-299 | the same progress |
| LoxGrammar.AndLoop | jlox/src/com/craftinginterpreters/lox/Parser.java:292-296 | never goes back; a throw has a report |
| LoxGrammar.EqualityRule | jlox/src/com/craftinginterpreters/lox/Parser.java:303-313 | the same progress |
| LoxGrammar.EqualityLoop | jlox/src/com/craftinginterpreters/lox/Parser.java:306-310 | never goes back; a throw has a report |
| LoxGrammar.ComparisonRule | jlox/src/com/craftinginterpreters/lox/Parser.java:317-327 | the same progress |
| LoxGrammar.ComparisonLoop | jlox/src/com/craftinginterpreters/lox/Parser.java:320-324 | never goes back; a throw has a report |
| LoxGrammar.TermRule | jlox/src/com/craftinginterpreters/lox/Parser.java:331-341 | the same progress |
| LoxGrammar.TermLoop | jlox/src/com/craftinginterpreters/lox/Parser.java:334-338 | never goes back; a throw has a report |
| LoxGrammar.FactorRule | jlox/src/com/craftinginterpreters/lox/Parser.java:345-355 | the same progress |
| LoxGrammar.FactorLoop | jlox/src/com/craftinginterpreters/lox/Parser.java:348-352 | never goes back; a throw has a report |
| LoxGrammar.UnaryRule | jlox/src/com/craftinginterpreters/lox/Parser.java:359-366 | the same progress |
| LoxGrammar.CallRule | jlox/src/com/craftinginterpreters/lox/Parser.java:370-384 | the same progress |
| LoxGrammar.CallLoop | jlox/src/com/craftinginterpreters/lox/Parser.java:373-381 | never goes back; a throw has a report |
| LoxGrammar.FinishCallRule | jlox/src/com/craftinginterpreters/lox/Parser.java:386-401 | the same progress |
| LoxGrammar.ArgumentsRule | jlox/src/com/craftinginterpreters/lox/Parser.java:388-396 | the arguments so far are a prefix of the result and at least one token is consumed |
| LoxGrammar.PrimaryRule | jlox/src/com/craftinginterpreters/lox/Parser.java:405-425 | the same progress; the failure is stated by PrimaryExpectExpression |
| LoxGrammar.Synchronize | jlox/src/com/craftinginterpreters/lox/Parser.java:478-498 | never goes back and reports nothing |
| LoxGrammar.SyncLoop | jlox/src/com/craftinginterpreters/lox/Parser.java:481-497 | never goes back and reports nothing |
| LoxGrammar.DeclarationRule | jlox/src/com/craftinginterpreters/lox/Parser.java:31-42 | at least one token is consumed; null only with a new report |
| LoxGrammar.DeclarationBody | jlox/src/com/craftinginterpreters/lox/Parser.java:32-37 | the same progress |
| LoxGrammar.ClassRule | jlox/src/com/craftinginterpreters/lox/Parser.java:44-56 | the same progress |
| LoxGrammar.MethodsRule | jlox/src/com/craftinginterpreters/lox/Parser.java:48-51 | the methods so far are a prefix of the result |
| LoxGrammar.FunctionRule | jlox/src/com/craftinginterpreters/lox/Parser.java:58-77 | the same progress |
| LoxGrammar.FunctionParameters | jlox/src/com/craftinginterpreters/lox/Parser.java:60-71 | the same progress |
| LoxGrammar.FunctionBody | jlox/src/com/craftinginterpreters/lox/Parser.java:73-76 | the same progress |
| LoxGrammar.ParametersRule | jlox/src/com/craftinginterpreters/lox/Parser.java:63-69 | the parameters so far are a prefix of the result |
| LoxGrammar.VarDeclarationRule | jlox/src/com/craftinginterpreters/lox/Parser.java:79-90 | the same progress |
| LoxGrammar.StatementRule | jlox/src/com/craftinginterpreters/lox/Parser.java:92-101 | the same progress |
| LoxGrammar.ForRule | jlox/src/com/craftinginterpreters/lox/Parser.java:105-151 | the same progress; the result is the while-loop desugaring |
| LoxGrammar.ForInitializer | jlox/src/com/craftinginterpreters/lox/Parser.java:109-116 | the same progress |
| LoxGrammar.ForCondition | jlox/src/com/craftinginterpreters/lox/Parser.java:119-123 | the same progress |
| LoxGrammar.ForIncrement | jlox/src/com/craftinginterpreters/lox/Parser.java:125-150 | the same progress |
| LoxGrammar.OptionalExpression | jlox/src/com/craftinginterpreters/lox/Parser.java:119-128 | when present, the expression consumed a token |
| LoxGrammar.IfRule | jlox/src/com/craftinginterpreters/lox/Parser.java:155-167 | the same progress |
| LoxGrammar.IfBranches | jlox/src/com/craftinginterpreters/lox/Parser.java:160-166 | the same progress |
| LoxGrammar.PrintRule | jlox/src/com/craftinginterpreters/lox/Parser.java:170-174 | the same progress |
| LoxGrammar.ReturnRule | jlox/src/com/craftinginterpreters/lox/Parser.java:176-187 | the same progress |
| LoxGrammar.WhileRule | jlox/src/com/craftinginterpreters/lox/Parser.java:189-196 | the same progress |
| LoxGrammar.BlockRule | jlox/src/com/craftinginterpreters/lox/Parser.java:199-208 | the same progress |
| LoxGrammar.BlockLoop | jlox/src/com/craftinginterpreters/lox/Parser.java:202-204 | the same progress |
| LoxGrammar.ExpressionStatementRule | jlox/src/com/craftinginterpreters/lox/Parser.java:210-214 | the same progress |
| LoxGrammar.ParseLoop | jlox/src/com/craftinginterpreters/lox/Parser.java:23-29 | the loop ends at EOF, and the entries so far are a prefix of the result |
| LoxGrammarProps.AssignmentRuleShape | jlox/src/com/craftinginterpreters/lox/Parser.java:239-366 | every expression the parser builds is layered: assignment (right-associative) over ternary (right-nesting) over or over and over equality over comparison over term over factor (each left-associative) over prefix unary over calls |
| LoxGrammarProps.TernaryRuleShape | jlox/src/com/craftinginterpreters/lox/Parser.java:264-275 | a ternary's condition is an or-expression and its branches are ternaries |
| LoxGrammarProps.PrimaryExpectExpression | jlox/src/com/craftinginterpreters/lox/Parser.java:405-425 | a token that cannot start a primary throws, consuming nothing, with exactly one report: "Expect expression." at that token |
| LoxGrammarProps.ExpectExpressionReported | jlox/src/com/craftinginterpreters/lox/Parser.java:217-425 | the same for a whole expression: the throw passes up through every level with that one report |
| LoxGrammarLog.ExpressionRuleLog | jlox/src/com/craftinginterpreters/lox/Parser.java:217-425 | an expression parses to the same node, stops at the same token and appends the same reports whatever was reported before it |
| LoxGrammarLog.ArgumentsRuleLog | jlox/src/com/craftinginterpreters/lox/Parser.java:388-396 | the same for a call's argument list, limit report included |
| LoxGrammarLog.ConsumeLog | jlox/src/com/craftinginterpreters/lox/Parser.java:442-446 | the same for consume() |
| LoxGrammarProps.TernaryColonReported | jlox/src/com/craftinginterpreters/lox/Parser.java:264-275 | after a condition, `?` and a then-branch, a token other than `:` throws with exactly one report, "Expect ':' in ternary expression." at that token |
| LoxGrammarProps.AssignmentTargets | jlox/src/com/craftinginterpreters/lox/Parser.java:239-261 | after `lhs =` and a parsed right side, a variable makes Assign and a property makes Set; any other target adds exactly one report, "Invalid assignment target." at the `=` token, and returns the left side without throwing; a throwing right side is passed on |
| LoxGrammarProps.TernaryBranchesShape | jlox/src/com/craftinginterpreters/lox/Parser.java:266-273 | the branches are ternaries again |
| LoxGrammarProps.OrRuleShape | jlox/src/com/craftinginterpreters/lox/Parser.java:277-287 | an or-chain is left-nested over and-expressions |
| LoxGrammarProps.OrLoopShape | jlox/src/com/craftinginterpreters/lox/Parser.java:280-284 | the loop keeps the left-nested shape |
| LoxGrammarProps.AndRuleShape | jlox/src/com/craftinginterpreters/lox/Parser.java:289-299 | an and-chain is left-nested over equality-expressions |
| LoxGrammarProps.AndLoopShape | jlox/src/com/craftinginterpreters/lox/Parser.java:292-296 | the loop keeps the shape |
| LoxGrammarProps.EqualityRuleShape | jlox/src/com/craftinginterpreters/lox/Parser.java:303-313 | `!=` and `==` are left-nested over comparisons |
| LoxGrammarProps.EqualityLoopShape | jlox/src/com/craftinginterpreters/lox/Parser.java:306-310 | the loop keeps the shape |
| LoxGrammarProps.ComparisonRuleShape | jlox/src/com/craftinginterpreters/lox/Parser.java:317-327 | comparisons are left-nested over terms |
| LoxGrammarProps.ComparisonLoopShape | jlox/src/com/craftinginterpreters/lox/Parser.java:320-324 | the loop keeps the shape |
| LoxGrammarProps.TermRuleShape | jlox/src/com/craftinginterpreters/lox/Parser.java:331-341 | `+` and `-` are left-nested over factors |
| LoxGrammarProps.TermLoopShape | jlox/src/com/craftinginterpreters/lox/Parser.java:334-338 | the loop keeps the shape |
| LoxGrammarProps.FactorRuleShape | jlox/src/com/craftinginterpreters/lox/Parser.java:345-355 | `*` and `/` are left-nested over unary operands, so factor binds tighter than term |
| LoxGrammarProps.FactorLoopShape | jlox/src/com/craftinginterpreters/lox/Parser.java:348-352 | the loop keeps the shape |
| LoxGrammarProps.UnaryRuleShape | jlox/src/com/craftinginterpreters/lox/Parser.java:359-366 | unary builds prefix operators that nest over calls and primaries |
| LoxGrammarProps.CallLoopShape | jlox/src/com/craftinginterpreters/lox/Parser.java:370-384 | calls and property accesses wrap an operand in an operand |
| LoxGrammarProps.StatementIfWithoutElse | jlox/src/com/craftinginterpreters/lox/Parser.java:155-167 | a statement parsed as an if without an else is not followed by `else` |
| LoxGrammarProps.IfRuleWithoutElse | jlox/src/com/craftinginterpreters/lox/Parser.java:155-167 | the same for ifStatement |
| LoxGrammarProps.IfBranchesWithoutElse | jlox/src/com/craftinginterpreters/lox/Parser.java:160-166 | the same for the branches |
| LoxGrammarProps.DanglingElse | jlox/src/com/craftinginterpreters/lox/Parser.java:153-167 | with two nested ifs, the else belongs to the inner, nearest one |
| LoxGrammarProps.ForNeverIf | jlox/src/com/craftinginterpreters/lox/Parser.java:105-151 | a desugared for loop is a block or a while loop, never an if |
| LoxGrammarProps.ForConditionNeverIf | jlox/src/com/craftinginterpreters/lox/Parser.java:119-150 | the same from the condition on |
| LoxGrammarProps.ForIncrementNeverIf | jlox/src/com/craftinginterpreters/lox/Parser.java:125-150 | the same from the increment on |
| LoxGrammarProps.SyncLoopStops | jlox/src/com/craftinginterpreters/lox/Parser.java:481-497 | the loop stops at the first boundary: after `;`, before a statement keyword, or at EOF |
| LoxGrammarProps.SynchronizeStops | jlox/src/com/craftinginterpreters/lox/Parser.java:478-503 | synchronize steps over at least one token (none only at EOF) and stops at the first boundary after it |
| LoxGrammarProps.ArgumentsOverLimit | jlox/src/com/craftinginterpreters/lox/Parser.java:388-396 | the limit check never changes the outcome: the argument list (or the throw) and the stopping token equal those of the same loop without the check; on success the log holds exactly one more "Can't have more than 255 arguments." report per argument past the 255th, and at least that many more reports than before |
| LoxGrammarProps.ParametersOverLimit | jlox/src/com/craftinginterpreters/lox/Parser.java:63-69 | the limit check never changes the outcome: the parameter list (or the throw) and the stopping token equal those of the same loop without the check; on success the log holds exactly one more "Can't have more than 255 parameters." report per parameter past the 255th, and at least that many more reports than before |
| LoxGrammarProps.ArgumentsLimit | jlox/src/com/craftinginterpreters/lox/Parser.java:388-396 | the same, from any two report logs at the same token: the checked and unchecked loops end alike and differ by one limit report per argument past the 255th |
| LoxGrammarProps.ParametersLimit | jlox/src/com/craftinginterpreters/lox/Parser.java:63-69 | the same for parameters |
| LoxGrammarProps.ArgumentsUnchecked | jlox/src/com/craftinginterpreters/lox/Parser.java:388-396 | the argument loop without the check: it consumes a token and extends the list on success, and reports before a throw |
| LoxGrammarProps.ParametersUnchecked | jlox/src/com/craftinginterpreters/lox/Parser.java:63-69 | the parameter loop without the check: the same |
| LoxGrammarProps.CountAppend | jlox/src/com/craftinginterpreters/lox/Parser.java:472-475 | the reports with a given message in two logs, one after the other, add up |
| LoxGrammarProps.ParseLoopCounts | jlox/src/com/craftinginterpreters/lox/Parser.java:23-42 | each entry consumed at least one token, and each null entry has its own report |
| LoxGrammarProps.ParseCounts | jlox/src/com/craftinginterpreters/lox/Parser.java:23-29 | parse returns at most one entry per token before EOF, and a null entry only when an error was reported |
| LoxGrammar.ParseRule | jlox/src/com/craftinginterpreters/lox/Parser.java:23-29 | parse returns no statement exactly when the first token is EOF |
| LoxParser.Parser.constructor | jlox/src/com/craftinginterpreters/lox/Parser.java:19-21 | position 0 with no reports |
| LoxParser.Parser.IsAtEnd | jlox/src/com/craftinginterpreters/lox/Parser.java:501-503 | the cursor is on EOF; it always is on the last token |
| LoxParser.Parser.Check | jlox/src/com/craftinginterpreters/lox/Parser.java:449-452 | the next token has the type; never true of EOF |
| LoxParser.Parser.Peek | jlox/src/com/craftinginterpreters/lox/Parser.java:461-463 | the token under the cursor, EOF exactly at the end |
| LoxParser.Parser.Previous | jlox/src/com/craftinginterpreters/lox/Parser.java:466-468 | the last token consumed: the tokens behind the cursor end with it |
| LoxParser.Parser.Advance | jlox/src/com/craftinginterpreters/lox/Parser.java:455-458 | the state becomes Advance's, and the result is the token just passed |
| LoxParser.Parser.Match | jlox/src/com/craftinginterpreters/lox/Parser.java:431-439 | advances exactly when the next token has one of the types |
| LoxParser.Parser.Error | jlox/src/com/craftinginterpreters/lox/Parser.java:472-475 | the report log gains exactly (token, message), at the same position |
| LoxParser.Parser.Consume | jlox/src/com/craftinginterpreters/lox/Parser.java:442-446 | the outcome is Consume's |
| LoxParser.Parser.Expression | jlox/src/com/craftinginterpreters/lox/Parser.java:217-219 | the outcome and the new state are ExpressionRule's |
| LoxParser.Parser.Assignment | jlox/src/com/craftinginterpreters/lox/Parser.java:239-261 | the outcome is AssignmentRule's |
| LoxParser.Parser.Ternary | jlox/src/com/craftinginterpreters/lox/Parser.java:264-275 | the outcome is TernaryRule's |
| LoxParser.Parser.Or | jlox/src/com/craftinginterpreters/lox/Parser.java:277-287 | the outcome is OrRule's |
| LoxParser.Parser.And | jlox/src/com/craftinginterpreters/lox/Parser.java:289-299 | the outcome is AndRule's |
| LoxParser.Parser.Equality | jlox/src/com/craftinginterpreters/lox/Parser.java:303-313 | the outcome is EqualityRule's |
| LoxParser.Parser.Comparison | jlox/src/com/craftinginterpreters/lox/Parser.java:317-327 | the outcome is ComparisonRule's |
| LoxParser.Parser.Term | jlox/src/com/craftinginterpreters/lox/Parser.java:331-341 | the outcome is TermRule's |
| LoxParser.Parser.Factor | jlox/src/com/craftinginterpreters/lox/Parser.java:345-355 | the outcome is FactorRule's |
| LoxParser.Parser.Unary | jlox/src/com/craftinginterpreters/lox/Parser.java:359-366 | the outcome is UnaryRule's |
| LoxParser.Parser.Call | jlox/src/com/craftinginterpreters/lox/Parser.java:370-384 | the outcome is CallRule's |
| LoxParser.Parser.FinishCall | jlox/src/com/craftinginterpreters/lox/Parser.java:386-401 | the outcome is FinishCallRule's |
| LoxParser.Parser.Arguments | jlox/src/com/craftinginterpreters/lox/Parser.java:388-396 | the outcome is ArgumentsRule's |
| LoxParser.Parser.Primary | jlox/src/com/craftinginterpreters/lox/Parser.java:405-425 | the outcome is PrimaryRule's |
| LoxParser.Parser.Parse | jlox/src/com/craftinginterpreters/lox/Parser.java:23-29 | from any valid state, the statements and the new state (the position and the whole report log) are ParseLoop's from the old state |
| LoxParser.Parser.Declaration | jlox/src/com/craftinginterpreters/lox/Parser.java:31-42 | the outcome is DeclarationRule's |
| LoxParser.Parser.ClassDeclaration | jlox/src/com/craftinginterpreters/lox/Parser.java:44-56 | the outcome is ClassRule's |
| LoxParser.Parser.Function | jlox/src/com/craftinginterpreters/lox/Parser.java:58-77 | the outcome is FunctionRule's |
| LoxParser.Parser.Parameters | jlox/src/com/craftinginterpreters/lox/Parser.java:62-70 | the outcome is ParametersRule's |
| LoxParser.Parser.VarDeclaration | jlox/src/com/craftinginterpreters/lox/Parser.java:79-90 | the outcome is VarDeclarationRule's |
| LoxParser.Parser.Statement | jlox/src/com/craftinginterpreters/lox/Parser.java:92-101 | the outcome is StatementRule's |
| LoxParser.Parser.ForStatement | jlox/src/com/craftinginterpreters/lox/Parser.java:105-151 | the outcome is ForRule's |
| LoxParser.Parser.ForInitializer | jlox/src/com/craftinginterpreters/lox/Parser.java:109-116 | the outcome is ForInitializer's |
| LoxParser.Parser.ForCondition | jlox/src/com/craftinginterpreters/lox/Parser.java:119-123 | the outcome is ForCondition's |
| LoxParser.Parser.ForIncrement | jlox/src/com/craftinginterpreters/lox/Parser.java:125-150 | the outcome is ForIncrement's |
| LoxParser.Parser.IfStatement | jlox/src/com/craftinginterpreters/lox/Parser.java:155-167 | the outcome is IfRule's |
| LoxParser.Parser.PrintStatement | jlox/src/com/craftinginterpreters/lox/Parser.java:170-174 | the outcome is PrintRule's |
| LoxParser.Parser.ReturnStatement | jlox/src/com/craftinginterpreters/lox/Parser.java:176-187 | the outcome is ReturnRule's |
| LoxParser.Parser.WhileStatement | jlox/src/com/craftinginterpreters/lox/Parser.java:189-196 | the outcome is WhileRule's |
| LoxParser.Parser.Block | jlox/src/com/craftinginterpreters/lox/Parser.java:199-208 | the outcome is BlockRule's |
| LoxParser.Parser.ExpressionStatement | jlox/src/com/craftinginterpreters/lox/Parser.java:210-214 | the outcome is ExpressionStatementRule's |
| LoxParser.Parser.Synchronize | jlox/src/com/craftinginterpreters/lox/Parser.java:478-498 | the new position is Synchronize's |
| LoxResolution.BeginScope | jlox/src/com/craftinginterpreters/lox/Resolver.java:237-239 | pushes one empty scope |
| LoxResolution.EndScope | jlox/src/com/craftinginterpreters/lox/Resolver.java:241-243 | pops exactly the innermost scope |
| LoxResolution.Declare | jlox/src/com/craftinginterpreters/lox/Resolver.java:250-261 | outside any scope nothing changes; otherwise only the innermost scope changes, the name mapped to false, and "Already a variable with this name in this scope." is reported at the name exactly when it was there |
| LoxResolution.Define | jlox/src/com/craftinginterpreters/lox/Resolver.java:264-267 | outside any scope nothing changes; otherwise only the innermost scope changes, the name mapped to true, with no report |
| LoxResolution.ResolveLocal | jlox/src/com/craftinginterpreters/lox/Resolver.java:270-277 | only the resolutions change, by at most one entry, for this expression; outside any scope nothing changes |
| LoxResolution.ResolveThis | jlox/src/com/craftinginterpreters/lox/Resolver.java:86-94 | outside a class, "Can't use 'this' outside of a class." is reported and nothing is resolved; inside one, no report; scopes and kinds unchanged |
| LoxResolution.ResolveVariable | jlox/src/com/craftinginterpreters/lox/Resolver.java:118-125 | "Can't read local variable in its own initializer." is reported exactly when the innermost scope has the name declared but not defined; scopes and kinds unchanged |
| LoxResolution.ResolveExpr | jlox/src/com/craftinginterpreters/lox/Resolver.java:37-125 | resolving an expression leaves the scopes and the function and class kinds as they were; resolutions and errors only grow |
| LoxResolution.ResolveExprs | jlox/src/com/craftinginterpreters/lox/Resolver.java:54-56 | the same for an argument list |
| LoxResolution.ResolveStmt | jlox/src/com/craftinginterpreters/lox/Resolver.java:129-221 | a statement leaves the scope stack at its height, with the outer scopes untouched and both kinds restored; resolutions and errors only grow |
| LoxResolution.ResolveFunctionStmt | jlox/src/com/craftinginterpreters/lox/Resolver.java:170-177 | the same for a function declaration |
| LoxResolution.ResolveIf | jlox/src/com/craftinginterpreters/lox/Resolver.java:181-186 | the same for if |
| LoxResolution.ResolveReturn | jlox/src/com/craftinginterpreters/lox/Resolver.java:195-203 | the same for return |
| LoxResolution.ResolveVar | jlox/src/com/craftinginterpreters/lox/Resolver.java:207-214 | the same for var |
| LoxResolution.ResolveStmts | jlox/src/com/craftinginterpreters/lox/Resolver.java:223-227 | the same for a statement list |
| LoxResolution.ResolveSlot | jlox/src/com/craftinginterpreters/lox/Resolver.java:229-231 | the same for one list entry |
| LoxResolution.ResolveClass | jlox/src/com/craftinginterpreters/lox/Resolver.java:138-160 | the same for a class; the class kind is restored |
| LoxResolution.ResolveMethods | jlox/src/com/craftinginterpreters/lox/Resolver.java:151-154 | the same for the methods |
| LoxResolution.ResolveFunction | jlox/src/com/craftinginterpreters/lox/Resolver.java:281-292 | the same for resolveFunction; the function kind is restored |
| LoxResolution.DeclareParams | jlox/src/com/craftinginterpreters/lox/Resolver.java:285-288 | the scope height, the kinds and the resolutions are unchanged, and errors only grow |
| LoxResolutionProps.FindScopeInnermost | jlox/src/com/craftinginterpreters/lox/Resolver.java:270-277 | the search finds the innermost scope declaring the name, or none declares it |
| LoxResolutionProps.DistanceInnermost | jlox/src/com/craftinginterpreters/lox/Resolver.java:270-277 | the distance is scopes.size()−1−i for that innermost scope i, and there is no distance exactly when no scope has the name (a global) |
| LoxResolutionProps.EffectsTrans | jlox/src/com/craftinginterpreters/lox/Resolver.java:37-125 | an expression's effects compose |
| LoxResolutionProps.LocalEffects | jlox/src/com/craftinginterpreters/lox/Resolver.java:270-277 | resolveLocal adds at most one resolution, naming a scope in force |
| LoxResolutionProps.ExprEffectsHold | jlox/src/com/craftinginterpreters/lox/Resolver.java:37-125 | every resolution an expression adds names one of the scopes in force, and every error is one an expression can report |
| LoxResolutionProps.ExprsEffectsHold | jlox/src/com/craftinginterpreters/lox/Resolver.java:54-56 | the same for argument lists |
| LoxResolutionProps.DepthsInRange | jlox/src/com/craftinginterpreters/lox/Resolver.java:273 | every depth handed to the interpreter is below the number of scopes |
| LoxResolutionProps.GlobalsUnresolved | jlox/src/com/craftinginterpreters/lox/Resolver.java:250-277 | at global scope nothing is resolved |
| LoxResolutionProps.ReturnReported | jlox/src/com/craftinginterpreters/lox/Resolver.java:195-198 | "Can't return from top-level code." is reported exactly when not inside a function |
| LoxResolutionProps.ThisReported | jlox/src/com/craftinginterpreters/lox/Resolver.java:87-94 | "Can't use 'this' outside of a class." is reported exactly when not inside a class |
| LoxResolutionProps.OwnInitializerReported | jlox/src/com/craftinginterpreters/lox/Resolver.java:119-214 | `var a = a;` in a local scope reports "Can't read local variable in its own initializer."; at global scope it reports nothing and resolves nothing |
| LoxResolutionProps.RedeclarationReported | jlox/src/com/craftinginterpreters/lox/Resolver.java:253-260 | declaring a name twice in one local scope reports "Already a variable with this name in this scope." |
| LoxResolutionProps.ShadowingAllowed | jlox/src/com/craftinginterpreters/lox/Resolver.java:250-261 | `{ var a; }` reports nothing whatever the enclosing scopes declare |
| LoxResolutionProps.BlockScopesKept | jlox/src/com/craftinginterpreters/lox/Resolver.java:129-134 | everything a block declares disappears when the block ends |
| LoxResolutionProps.FunctionScopesKept | jlox/src/com/craftinginterpreters/lox/Resolver.java:281-292 | a function's parameters and locals live only in its own scope |
| LoxResolutionProps.FunctionNameDefined | jlox/src/com/craftinginterpreters/lox/Resolver.java:170-177 | the function's name is defined in the enclosing scope before the body is resolved |
| LoxResolutionProps.NameDefined | jlox/src/com/craftinginterpreters/lox/Resolver.java:250-267 | declare then define maps the name to true in the innermost scope |
| LoxResolutionProps.ClassNameDefined | jlox/src/com/craftinginterpreters/lox/Resolver.java:138-160 | in a local scope: the methods are resolved with the class's name defined in the enclosing scope and one more scope holding only "this", defined, with the class kind set; afterwards the stack is the enclosing scopes with the name, and the class kind is restored |
| LoxResolutionProps.ThisInMethod | jlox/src/com/craftinginterpreters/lox/Resolver.java:86-94 | inside a method body, `this` resolves one scope out unless the body shadows it |
| LoxResolver.Resolver.constructor | jlox/src/com/craftinginterpreters/lox/Resolver.java:31-33 | no scopes, kinds NONE, nothing recorded |
| LoxResolver.Resolver.Resolve | jlox/src/com/craftinginterpreters/lox/Resolver.java:223-227 | the new state is ResolveStmts of the old |
| LoxResolver.Resolver.ResolveSlot | jlox/src/com/craftinginterpreters/lox/Resolver.java:229-231 | the new state is ResolveSlot of the old |
| LoxResolver.Resolver.ResolveStatement | jlox/src/com/craftinginterpreters/lox/Resolver.java:129-221 | the new state is ResolveStmt of the old |
| LoxResolver.Resolver.ResolveExpression | jlox/src/com/craftinginterpreters/lox/Resolver.java:37-125 | the new state is ResolveExpr of the old |
| LoxResolver.Resolver.ResolveArguments | jlox/src/com/craftinginterpreters/lox/Resolver.java:54-56 | the new state is ResolveExprs of the old |
| LoxResolver.Resolver.VisitThis | jlox/src/com/craftinginterpreters/lox/Resolver.java:87-94 | the new state is ResolveThis of the old |
| LoxResolver.Resolver.VisitVariable | jlox/src/com/craftinginterpreters/lox/Resolver.java:119-125 | the new state is ResolveVariable of the old |
| LoxResolver.Resolver.VisitClass | jlox/src/com/craftinginterpreters/lox/Resolver.java:138-160 | the new state is ResolveClass of the old |
| LoxResolver.Resolver.VisitFunction | jlox/src/com/craftinginterpreters/lox/Resolver.java:170-177 | the new state is ResolveFunctionStmt of the old |
| LoxResolver.Resolver.VisitIf | jlox/src/com/craftinginterpreters/lox/Resolver.java:181-186 | the new state is ResolveIf of the old |
| LoxResolver.Resolver.VisitReturn | jlox/src/com/craftinginterpreters/lox/Resolver.java:195-203 | the new state is ResolveReturn of the old |
| LoxResolver.Resolver.VisitVar | jlox/src/com/craftinginterpreters/lox/Resolver.java:207-214 | the new state is ResolveVar of the old |
| LoxResolver.Resolver.BeginScope | jlox/src/com/craftinginterpreters/lox/Resolver.java:237-239 | the new state is BeginScope of the old |
| LoxResolver.Resolver.EndScope | jlox/src/com/craftinginterpreters/lox/Resolver.java:241-243 | the new state is EndScope of the old |
| LoxResolver.Resolver.LoxError | jlox/src/com/craftinginterpreters/lox/Resolver.java:257-259 | one report is appended to the log |
| LoxResolver.Resolver.Declare | jlox/src/com/craftinginterpreters/lox/Resolver.java:250-261 | the new state is Declare of the old |
| LoxResolver.Resolver.Define | jlox/src/com/craftinginterpreters/lox/Resolver.java:264-267 | the new state is Define of the old |
| LoxResolver.Resolver.ResolveLocal | jlox/src/com/craftinginterpreters/lox/Resolver.java:270-277 | the new state is ResolveLocal of the old |
| LoxResolver.Resolver.ResolveFunction | jlox/src/com/craftinginterpreters/lox/Resolver.java:281-292 | the new state is ResolveFunction of the old |
| LoxEnvironment.Nearest | jlox/src/com/craftinginterpreters/lox/Environment.java:45-53 | the index found is that of a map that binds the name |
| LoxEnvironment.ReassignTail | jlox/src/com/craftinginterpreters/lox/Environment.java:80-83 | assign of a name the innermost map lacks is assign on the enclosing chain |
| LoxEnvironment.Environment.Global | jlox/src/com/craftinginterpreters/lox/Environment.java:15-17 | one empty map and no enclosing environment |
| LoxEnvironment.Environment.Nested | jlox/src/com/craftinginterpreters/lox/Environment.java:20-22 | an empty map in front of the enclosing chain |
| LoxEnvironment.Environment.Suffix | jlox/src/com/craftinginterpreters/lox/Environment.java:63-70 | the environment i links out sees the rest of the maps |
| LoxEnvironment.Environment.Define | jlox/src/com/craftinginterpreters/lox/Environment.java:33-35 | the chain's maps become Bind of the old: the own map gains or overwrites the name, the others are unchanged |
| LoxEnvironment.Environment.Get | jlox/src/com/craftinginterpreters/lox/Environment.java:45-53 | the result is Lookup: the nearest binding, or "Undefined variable '<name>'." |
| LoxEnvironment.Environment.Assign | jlox/src/com/craftinginterpreters/lox/Environment.java:74-86 | the maps become Reassign's, or the same error with nothing changed |
| LoxEnvironment.Environment.Ancestor | jlox/src/com/craftinginterpreters/lox/Environment.java:63-70 | following enclosing distance times gives the environment whose maps are the suffix from distance on |
| LoxEnvironment.Environment.GetAt | jlox/src/com/craftinginterpreters/lox/Environment.java:59-61 | reads only the map distance links out |
| LoxEnvironment.Environment.AssignAt | jlox/src/com/craftinginterpreters/lox/Environment.java:88-90 | writes only that map, creating the entry if absent |
| LoxEnvironment.Environment.FramesAre | jlox/src/com/craftinginterpreters/lox/Environment.java:23 | the list of maps is the chain's own maps, in order |
| LoxEnvironmentProps.NearestInnermost | jlox/src/com/craftinginterpreters/lox/Environment.java:45-53 | the search gives the innermost map binding the name, or none when no map binds it |
| LoxEnvironmentProps.NearestSameKeys | jlox/src/com/craftinginterpreters/lox/Environment.java:45-53 | the search depends only on which maps bind the name |
| LoxEnvironmentProps.ReadAfterDefine | jlox/src/com/craftinginterpreters/lox/Environment.java:33-53 | after define(n, v), get(n) gives v, and every other name reads as before |
| LoxEnvironmentProps.ReadAfterAssign | jlox/src/com/craftinginterpreters/lox/Environment.java:45-86 | assign succeeds exactly when get would and fails with the same error otherwise; it creates no binding, is read back by get, and leaves other names alone |
| LoxEnvironmentProps.ResolvedAccess | jlox/src/com/craftinginterpreters/lox/Environment.java:59-90 | at the distance get finds a name, getAt reads the same value and assignAt does what assign does; assignAt is read back by getAt |
| LoxEnvironmentProps.ResolverDistanceIsDynamic | jlox/src/com/craftinginterpreters/lox/Resolver.java:270-277 | when the environments mirror the resolver's scopes, a local resolved at distance d is found by get at d, and a name left to global is found in the global map |
| LoxRuntime.LoxFunction.constructor | jlox/src/com/craftinginterpreters/lox/LoxFunction.java:12-15 | keeps the declaration and the closure |
| LoxRuntime.LoxFunction.BindArguments | jlox/src/com/craftinginterpreters/lox/LoxFunction.java:20-26 | a fresh environment enclosed by the closure (not the caller's) holds the parameters bound to the arguments; the closure's maps are unchanged |
| LoxRuntime.LoxFunction.Call | jlox/src/com/craftinginterpreters/lox/LoxFunction.java:18-36 | the body runs on the bound parameters in front of the closure's maps; afterwards the new environment and the closure hold what the body left in those maps; the result is the Return value, or nil |
| LoxRuntime.LoxFunction.Arity | jlox/src/com/craftinginterpreters/lox/LoxFunction.java:39-41 | the number of declared parameters |
| LoxRuntime.LoxFunction.ToString | jlox/src/com/craftinginterpreters/lox/LoxFunction.java:44-46 | "<fn " + name + ">" |
| LoxRuntime.LoxClass.constructor | jlox/src/com/craftinginterpreters/lox/LoxInstance.java:22 | keeps the name and the method lookup |
| LoxRuntime.LoxInstance.constructor | jlox/src/com/craftinginterpreters/lox/LoxInstance.java:12-14 | no fields |
| LoxRuntime.LoxInstance.Get | jlox/src/com/craftinginterpreters/lox/LoxInstance.java:17-26 | the result is Property: a field, else a method from findMethod, else "Undefined property '<name>'." |
| LoxRuntime.LoxInstance.Set | jlox/src/com/craftinginterpreters/lox/LoxInstance.java:28-30 | only that field is created or overwritten, and get reads the value back |
| LoxRuntime.LoxInstance.ToString | jlox/src/com/craftinginterpreters/lox/LoxInstance.java:33-35 | the class name followed by " instance" |
| LoxRuntimeProps.ParamsNamed | jlox/src/com/craftinginterpreters/lox/LoxFunction.java:24-26 | call binds exactly the parameter names |
| LoxRuntimeProps.ParamsBound | jlox/src/com/craftinginterpreters/lox/LoxFunction.java:24-26 | parameter i is bound to argument i unless a later parameter has the same name |
| LoxRuntimeProps.PropertyLaws | jlox/src/com/craftinginterpreters/lox/LoxInstance.java:17-30 | a field shadows a method; a method is found only when no field exists; an error only when neither exists; set changes get for that name only |
| LoxAstPrinter.PrintExpr | jlox/src/com/craftinginterpreters/lox/AstPrinter.java:13-75 | every compound node prints between a pair of parentheses |
| LoxAstPrinter.PrintExprs | jlox/src/com/craftinginterpreters/lox/AstPrinter.java:33-35 | the arguments are printed one for one |
| LoxAstPrinter.PrintStmt | jlox/src/com/craftinginterpreters/lox/AstPrinter.java:77-156 | expression, if, print, var and while statements end in ";\n"; the others are parenthesised |
| LoxAstPrinter.PrintIf | jlox/src/com/craftinginterpreters/lox/AstPrinter.java:126-128 | an if prints as a line ending in ";\n" |
| LoxAstPrinter.PrintSlots | jlox/src/com/craftinginterpreters/lox/AstPrinter.java:81-83 | one printed string per statement |
| LoxAstPrinter.Lexemes | jlox/src/com/craftinginterpreters/lox/AstPrinter.java:108-110 | the parameters' lexemes in order |
| LoxAstPrinterProps.ParenthesizeJoin | jlox/src/com/craftinginterpreters/lox/AstPrinter.java:158-170 | parenthesize is "(" + name and the parts joined by single spaces + ")" |
| LoxAstPrinter.Parenthesize | jlox/src/com/craftinginterpreters/lox/AstPrinter.java:158-170 | the text opens with "(" and the name and closes with ")" |
| LoxAstPrinterProps.BinaryPrefix | jlox/src/com/craftinginterpreters/lox/AstPrinter.java:23-64 | binary and logical nodes print as (op left right) |
| LoxAstPrinterProps.UnaryForm | jlox/src/com/craftinginterpreters/lox/AstPrinter.java:66-69 | (op e) |
| LoxAstPrinterProps.GroupingForm | jlox/src/com/craftinginterpreters/lox/AstPrinter.java:46-49 | (group e) |
| LoxAstPrinterProps.BinaryForm | jlox/src/com/craftinginterpreters/lox/AstPrinter.java:23-26 | (op l r) written out |
| LoxAstPrinterProps.TernaryForm | jlox/src/com/craftinginterpreters/lox/AstPrinter.java:18-21 | (?: c t e) |
| LoxAstPrinterProps.IfBranchStripped | jlox/src/com/craftinginterpreters/lox/AstPrinter.java:126-128 | an else-less if prints "(if cond " + the stripped branch + ");\n", and the branch neither starts nor ends with whitespace |
| LoxAstPrinterProps.FactorOverTermPrinted | jlox/src/com/craftinginterpreters/lox/ParserTest.java:24 | the tree for "4 + 5 * 2", written out by hand, prints "(+ 4.0 (* 5.0 2.0))" |
| LoxAstPrinterProps.RecursiveUnaryPrinted | jlox/src/com/craftinginterpreters/lox/ParserTest.java:40 | the tree for "-!!123", written out by hand, prints "(- (! (! 123.0)))" |
| LoxAstPrinterProps.QuotesKept | jlox/src/com/craftinginterpreters/lox/AstPrinter.java:52-56 | an expression with a string literal prints a double quote |
| LoxAstPrinterProps.StringLiteralQuoted | jlox/src/com/craftinginterpreters/lox/AstPrinterTest.java:23 | the test's tree prints with quotes, two characters longer than the expected text, so not equal to it |
| LoxAstPrinterProps.ExampleLength | jlox/src/com/craftinginterpreters/lox/AstPrinterTest.java:11-23 | that tree prints 47 characters |
| LoxAstPrinterProps.NotReachedLength | jlox/src/com/craftinginterpreters/lox/AstPrinterTest.java:18-21 | its ternary prints 27 characters |
| LoxRpnPrinter.PostOrder | jlox/src/com/craftinginterpreters/lox/RpnPrinter.java:9-26 | the post-order list of leaves and operators is never empty |
| LoxRpnPrinter.UnaryOperator | jlox/src/com/craftinginterpreters/lox/RpnPrinter.java:14-16 | a negation prints as "~", never "-"; any other operator prints as written |
| LoxRpnPrinter.RpnPrint | jlox/src/com/craftinginterpreters/lox/RpnPrinter.java:4-26 | a binary or unary node's operator comes last, after a space |
| LoxRpnPrinter.RpnIsPostfix | jlox/src/com/craftinginterpreters/lox/RpnPrinter.java:9-26 | the output is the post-order list of operands and operators, with `-` as `~` and groupings dropped, joined by single spaces |
| LoxRpnPrinter.NoParens | jlox/src/com/craftinginterpreters/lox/RpnPrinter.java:9-26 | the output contains no parenthesis unless an operator or literal text has one |
| LoxRpnPrinter.Ungroup | jlox/src/com/craftinginterpreters/lox/RpnPrinter.java:23-26 | the tree without groupings is still printable and has no top-level grouping |
| LoxRpnPrinter.GroupingTransparent | jlox/src/com/craftinginterpreters/lox/RpnPrinter.java:23-26 | removing every grouping leaves the output unchanged |
| LoxRpnPrinter.NegationTimesString | jlox/src/com/craftinginterpreters/lox/RpnPrinterTest.java:18 | (−123) * (group "str") prints "123 ~ str *" |
| LoxText.JoinAppend | jlox/src/com/craftinginterpreters/lox/AstPrinter.java:158-170 | joining a+b is joining a, a space, then joining b |
| LoxText.SpacedIsJoin | jlox/src/com/craftinginterpreters/lox/AstPrinter.java:162-165 | the append-space-then-part loop is one space before the reference join |
| LoxText.Lead | jlox/src/com/craftinginterpreters/lox/AstPrinter.java:127 | the leading whitespace count is at most the length |
| LoxText.Trail | jlox/src/com/craftinginterpreters/lox/AstPrinter.java:127 | the trailing whitespace count is at most the length |
| LoxText.LeadSpec | jlox/src/com/craftinginterpreters/lox/AstPrinter.java:127 | Lead counts exactly the leading whitespace |
| LoxText.TrailSpec | jlox/src/com/craftinginterpreters/lox/AstPrinter.java:127 | Trail counts exactly the trailing whitespace |
| LoxText.StripSpec | jlox/src/com/craftinginterpreters/lox/AstPrinter.java:127 | strip leaves a slice of the text; everything cut off is whitespace; the slice neither starts nor ends with whitespace |
| LoxText.StripIdempotent | jlox/src/com/craftinginterpreters/lox/AstPrinter.java:127 | strip twice is strip once |
| LoxText.Strip | jlox/src/com/craftinginterpreters/lox/AstPrinter.java:127 | the result is a slice of the text, starting after the leading whitespace |

## Left out

- Input and output are not modelled. This covers Lox.error's printing, clox's REPL and file reading (main.c), the disassembler (debug.c), the token-printing compiler stub (compiler.c), printValue/printObject, and the DEBUG_LOG_GC output. Reports are a log.
- The bytecode interpreter is not modelled: the run loop and interpret in vm.c print, and have a broken READ_CONSTANT macro. Only the value stack is modelled.
- Floating point is not modelled:
  - a number literal is its text, since Double.parseDouble is not modelled;
  - Double.toString and Token.toString are parameters of the printers;
  - clox numbers are IEEE-754 double bit patterns (`bv64`). Only equality is modelled, as IEEE equality on the bits (NaN unequal to itself, +0 equal to -0); arithmetic is not.
- Interpreter.java is not part of this model. `executeBlock` is a parameter of LoxFunction.Call, and the function returns a Completion (normal or Return) instead of throwing.
- LoxRuntime.LoxFunction.Call: the body's reads and writes of the environment chain are modelled only as a function from the chain's maps to new maps. Its effects on instances, on environments outside the callee's chain, and executeBlock itself are not modelled.
- Characters: Java's `char` is a UTF-16 code unit, and Dafny's `char` is a Unicode scalar value. A character outside the Basic Multilingual Plane is one character in the scanner model but two in Scanner.java, so positions and lexemes differ for such sources.
- clox's `int` counts and capacities are unbounded naturals in the model. The wrap-around of a C `int` past 2^31 - 1 is not modelled.
- LoxClass.java is not part of this model. findMethod is an uninterpreted parameter.
- clox/scanner.c is a stub and is not modelled.
- Raw allocation (malloc, realloc, free, exit(1) on failure) is not modelled. Buffers are arrays or sequences that grow by GROW_CAPACITY, and freeing gives bytes back to a counter.
- LoxResolution.ResolveLocal: the distances the resolver hands to interpreter.resolve are a call-ordered sequence of (expression, depth) pairs, not a map keyed by node identity. Nodes are values in this model, so two equal nodes cannot be told apart.
- The resolver handles only the nodes the parser builds. Super and This are not built by primary(); there is no visitSuperExpr; Stmt.Class is built with two arguments, so superclass resolution is left out.
- LoxAstPrinter.PrintStmt: requires every statement to be printable. AstPrinter.java has no visitor for Get, Set, This, Super or Class, and it throws on a null initializer, a null return value or a null statement. Its AnonFun visitor returns null and is not modelled.
- LoxRpnPrinter.RpnIsPostfix: covers the four node kinds RpnPrinter.java visits; it has no Ternary visitor, although RpnPrinterTest.java:24 expects one.
- LoxAstPrinterProps.StringLiteralQuoted: AstPrinterTest.java:23 expects an unquoted string; the printer quotes strings, so the model proves the output differs from that expectation.
- CloxChunk.Chunk.Write: writeChunk is split into WriteToRun (the early return) and WriteNewRun. The capacity shape (0 or 8·2^k) is proved over the size trace by RunKeepsCapacities, not kept in the class invariant.
- CloxTable.Home: `hash & (capacity - 1)` is modelled as `hash % capacity`. The two are equal because every nonzero capacity is a power of two, which is the table invariant.
- CloxTable: findEntry compares keys by pointer (table.c:49). The model compares whole ObjString records, which stands in for pointer identity only because interning gives one record per text. Text equality is proved separately through MatchesIsSameText.
- CloxMemory.Collector.FreeObjects: the closing free of the gray stack (memory.c:259) is not modelled. freeObject's effect on each object is applied through FreeList.
- CloxMemory.Collector.FreeObject: the per-kind frees of owned buffers (memory.c:135-180) are modelled as one byte count for each object.
- CloxVm.Vm.Push / Pop: vm.c's push and pop do no bounds check, so a push past STACK_MAX and a pop on an empty stack are undefined behaviour in C. The requires of these two methods exclude both cases.
- LoxResolution.ResolveStmts / LoxResolver.Resolver.Resolve: require a statement list without null entries, nested ones included. Parser.java:38-40 puts null in the list for a declaration that failed; one such input is the `class BostonCream < Doughnut` source of InterpreterTest.java:404-413. On such a list Resolver.java:229-231 calls accept on null and throws a NullPointerException; the model excludes these inputs.
- LoxResolution.ResolveStmts: see the line above; a null entry is excluded, not resolved.
- LoxResolution.ResolveSlot: requires a non-null entry; Resolver.java:229-231 throws a NullPointerException on null, and the model excludes it.
- LoxResolver.Resolver.Resolve: see the line for ResolveStmts above; the same inputs are excluded.
- LoxResolver.Resolver.ResolveSlot: requires a non-null entry, as LoxResolution.ResolveSlot does; Java throws a NullPointerException on null.
- LoxRuntime.LoxFunction.ToString: requires a named declaration. An anonymous function has a null name (Resolver.java:171 tests for it), and LoxFunction.java:45 then throws a NullPointerException; the model excludes that input.
- LoxGrammarProps.ArgumentsOverLimit: counts the limit reports but does not state the token each one names (the first token of that argument).
- LoxGrammarProps.ParametersOverLimit: counts the limit reports but does not state the token each one names (the token where that parameter should start).
- The DEBUG_STRESS_GC path of reallocate is not modelled.
- memory.h declares reallocate without the VM parameter that memory.c gives it; the model follows memory.c.
- jlox's Token.toString, the Lox driver, GenerateAst.java's code writer and the test harnesses are not modelled. The AST datatype follows the node list at GenerateAst.java:20-46.

## Findings

| source | as written | input that shows it | evidently intended | confidence | as-written member | corrected member |
|---|---|---|---|---|---|---|
| clox/chunk.c:58 | when the line table grows, `GROW_ARRAY` reallocates `lineStarts` to `chunk->capacity` entries (the code buffer's capacity), not to the new `lineStartsCapacity` | nine bytes on line 1, then one byte on each of lines 2 to 9: the ninth line start grows the table to capacity 16, but its block is reallocated to 32 entries | reallocate the block to `lineStartsCapacity` | not executed | CloxChunk.AsWrittenBlockMismatch | CloxChunk.RunKeepsBlock |
