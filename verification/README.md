# ULSIOD: what its data structures and algorithms keep

ULSIOD is a small Scheme runtime in C. These modules model the parts of it that have
properties worth proving and prove them for all inputs, states and runs.

* **Storage.** `Cells.dfy` is the cell layout both collectors work on, `Registers.dfy` the
  list of protected C variables. `StopAndCopy.dfy` is the Cheney collector, step by step
  over an array of cells with forwarding addresses in the CAR word; `GraphPreserved.dfy`
  says what a collection means to a program, `CopyRuns.dfy` follows whole runs. `MarkSweep.dfy` is the marker, the sweep, the
  free list over several heaps, the unborn region, heap growth and allocation, up to whole
  runs of a program; `Programs.dfy` has the steps such runs are made of.
* **The binary format.** `FastIO.dfy` gives the printer and the reader as functions and
  proves that reading undoes printing, symbol table and all; `FastStream.dfy` has the two
  as objects with loops that update a file and a table. `Bytes.dfy` and `Data.dfy` hold
  octets and trees of data.
  `FastFormat.dfy` says which octets they are.
* **The textual format.** `TextIO.dfy` and `TextStream.dfy`, likewise; `TextSyntax.dfy` goes
  through the syntaxes that are read and the text that is printed.
* **The evaluator.** `Evaluator.dfy` defines evaluation over a memory of objects that
  programs, environments and data share, with the catch frames in the state.
  `Steps.dfy` shows that the step budget only bounds it, and `FormRules.dfy` does without it:
  rule by rule, with both directions, what each form comes to. `Application.dfy` compares the ways
  a function is applied, `Environments.dfy` states the laws of assignment and definition,
  `LetForms.dfy` the in-place rewriting of `let`, `let*` and `letrec` and `LetMeanings.dfy`
  what the forms come to.
  `Interpreter.dfy` is the evaluator with its loops over a machine state.
* **Indexes.** `HashTables.dfy`: `equal?`, `sxhash` and tables. `Obarray.dfy`: interning.
* **Octets and lists.** `Md5.dfy`, `Md5Block.dfy` and `Md5Suite.dfy`, `Base64.dfy`, `UrlCoding.dfy`, `Quicksort.dfy`.

Conventions. NIL is pointer 0. An error, which the C code raises with `longjmp`, is an
outcome; so is an exhausted step budget in the evaluator, whose loops may run for ever.
Addresses returned by `malloc`, words found on the C stack, the machine's conversion of a
double to an unsigned word, and the C functions behind subrs other than the ones modelled are
parameters. Integers are unbounded except where a C width matters, and there the
wrap-around or truncation is written out.

Where the code does not do what one would expect of it, the model follows the code and says
exactly when the expectation holds:

* A string or byte array is written with its length cut to a C `int`
  (`FastIO.BytesReadBackExactly`).
* A symbol that is too long to be written is in the printer's table all the same, and
  references are written for it later on without an error (`FastIO.RefusedNameIsFetched`);
  a stream reads back exactly when there is no such symbol (`FastIO.StreamReadsBackExactly`).
* The counting pass of `siod_url_decode` does not step over the two digits of an escape, so
  the string it makes is longer than its contents whenever there is a percent sign
  (`UrlCoding.CountIsExactWhen`).
* An assignment to a dotted rest parameter is lost (`Environments.SetSeenExactly`,
  `Environments.RestKeepsItsValue`).
* The guard of the block loop of `MD5Update` is computed in 32 bits and wraps for the
  longest inputs (`Md5.GuardIsExact`, `Md5.GuardWraps`).
* Some symbols and strings have printed forms that do not read back
  (`TextIO.SymbolReadsBackExactly`, `TextIO.StringReadsBackExactly`).

`dafny verify dfyconfig.toml` checks the project.

## Model

| member | source | states |
|---|---|---|
| `Cells.WalkExtend` | src/ulsiod.h:11-56 | following one more pointer from the object at the end of an access path is following the longer path |
| `Cells.ReachableChild` | src/slib.c:1354-1388 | a pointer held by a reachable cell is NIL or reachable |
| `Cells.ReachableRoot` | src/slib.c:1005-1013 | a pointer in a protected location is NIL or reachable |
| `Cells.ClosedIsReachable` | src/slib.c:1354-1388 | a set of cells that holds the roots and is closed under following pointers holds every reachable cell |
| `Cells.CellsOkArray` | src/sliba.c:345-384 | turning a cons into an array that owns a new block keeps every cell in order and every block with one owner |
| `Registers.RegisterMore` | src/slib.c:993-999 | protecting a further range adds its locations in front and leaves the others as they were |
| `StopAndCopy.RoomForOneMore` | src/slib.c:1152-1186 | while a reachable cell is still uncopied fewer cells have been copied than were in use, so the new space cannot run out |
| `StopAndCopy.CopyOne` | src/slib.c:1152-1186 | copying one cell and leaving its forwarding address keeps the whole collection invariant and forwards exactly one cell more |
| `StopAndCopy.MarkIsForwarded` | src/slib.c:1152-1186 | during a collection the mark bit of an old cell says whether it was copied, and then its first word is the forwarding address |
| `StopAndCopy.AllReachableCopied` | src/slib.c:1199-1226 | when the scan pointer meets the allocation pointer the copied cells are exactly the reachable ones |
| `StopAndCopy.LiveBlocksRemain` | src/slib.c:1228-1251 | freeing the blocks of the uncopied cells leaves exactly the blocks owned by copied cells |
| `StopAndCopy.EndOfCollection` | src/slib.c:1253-1266 | freeing the old space leaves the copied graph alone, the new space well formed, every root in it, and no more cells in use than before |
| `StopAndCopy.CopyHeap.CopyOut` | src/sliba.c:56-61 | the next cell of the new space gets the contents of the old cell, which then holds its mark and forwarding address; the out-of-storage branch is dead |
| `StopAndCopy.CopyHeap.GcRelocate` | src/slib.c:1152-1186 | NIL stays NIL, a copied cell gives its copy, and an uncopied one is copied once; nothing already in the new space changes |
| `StopAndCopy.CopyHeap.ScanRegisters` | src/slib.c:1005-1013 | every protected location is forwarded, once, and no other C variable changes |
| `StopAndCopy.CopyHeap.ArrayGcScan` | src/sliba.c:63-68 | every element of a lisp array is forwarded in its block, in place |
| `StopAndCopy.CopyHeap.ScanCell` | src/slib.c:1199-1226 | the pointers of one copied cell, by its kind, are forwarded and the scan moves past it |
| `StopAndCopy.CopyHeap.ScanNewspace` | src/slib.c:1199-1226 | the scan loop ends with every copied cell forwarded |
| `StopAndCopy.CopyHeap.FreeOldspace` | src/slib.c:1228-1251 | exactly the blocks of the old cells that were not copied are freed, each once |
| `StopAndCopy.CopyHeap.GetNewspace` | src/slib.c:1188-1197 | the other of the two spaces becomes the one in use, empty |
| `StopAndCopy.CopyHeap.GcStopAndCopy` | src/slib.c:1253-1266 | a whole collection leaves a copy of the reachable graph: each live cell copied once, registers and cells pointing only into the new space, live blocks kept and dead ones freed, usage not above the old one |
| `StopAndCopy.CopyHeap.ConsCell` | src/slib.c:713-718 | a cons takes the next cell and changes nothing else, or reports that the space is full |
| `StopAndCopy.CopyHeap.ArCons` | src/sliba.c:345-384 | an array cell takes the next cell and owns a new block, of blanks in a string and of zeros or NILs elsewhere, and nothing else changes, or storage is full |
| `StopAndCopy.CopyHeap.NewFilled` | src/slib.c:749-761 | a new cell of any kind without a block takes the next cell, or storage is full; a cons or a closure holds the two pointers given in their order, a symbol its name and value, a number or a subr its two words |
| `StopAndCopy.CopyHeap.SetValueCell` | src/slib.c:1827-1832 | storing the global value of a symbol changes that word alone and keeps storage in order |
| `StopAndCopy.CopyHeap.SetElement` | src/sliba.c:264-291 | storing an element of a lisp array changes that element of its block alone |
| `StopAndCopy.CopyHeap.GcProtectN` | src/slib.c:993-999 | the range, apart from those protected, is protected from then on |
| `GraphPreserved.WalkCopied` | src/slib.c:1253-1266 | following any path from a copied object arrives at the copy of where the path led before |
| `GraphPreserved.SharingPreserved` | src/slib.c:1253-1266 | two access paths from the registers lead to one object after a collection exactly when they did before |
| `GraphPreserved.ContentsPreserved` | src/slib.c:1253-1266 | the object at the end of an access path keeps its kind, its atomic contents and its data, and is NIL exactly if it was |
| `GraphPreserved.GraphIsSame` | src/slib.c:1253-1266 | so after a collection every access path leads to an object of the same kind, contents and data, and two lead to one object exactly when they did |
| `CopyRuns.DoCollect` | src/slib.c:1228-1266 | `siod_gc_stop_and_copy` leaves the graph of the protected registers the same, every other C variable alone, as many cells in use as the registers lead to, and exactly the blocks those own |
| `CopyRuns.Step` | src/slib.c:694-761 | each step of a program, collections among them, has its whole effect and keeps storage in order: a collection frees exactly the blocks of unreachable cells, an allocation fails exactly when an operand is bad or the space in use is full, and then changes nothing |
| `CopyRuns.Run` | src/slib.c:1228-1266 | over any run in copying mode storage stays in order, at every step the blocks are those that cells in use own, each collection leaves the graph the same and frees exactly the blocks outside it, and allocations fail only for want of room |
| `MarkSweep.MarkOne` | src/slib.c:1354-1388 | marking one cell adds just that cell to the marked set and leaves its children as what is still to be marked |
| `MarkSweep.EndMark` | src/slib.c:1354-1428 | when the roots are marked and no marked cell has an unmarked child the marked cells are exactly the reachable ones |
| `MarkSweep.SameReachable` | src/slib.c:1319-1338 | turning the unborn region into free cells before a collection changes no reachability |
| `MarkSweep.SweepDead` | src/slib.c:1430-1471 | sweeping an unmarked cell puts it on the free list without duplicating or breaking the list |
| `MarkSweep.SweepLive` | src/slib.c:1430-1471 | sweeping a marked cell clears its mark and keeps it |
| `MarkSweep.EndSweep` | src/slib.c:1430-1471 | after the sweep the free list holds exactly the cells that did not survive, all marks are clear and the blocks left are those of survivors |
| `MarkSweep.SurvivorsOk` | src/slib.c:1430-1471 | the surviving cells point only at each other and own their blocks apart |
| `MarkSweep.ChainIsFree` | src/slib.c:1268-1292 | chaining up the cells of a new heap in front of the old free list gives an acyclic list of all of them |
| `MarkSweep.MarkHeap.constructor` | src/slib.c:1025-1042 | storage starts with one heap, all of it unborn, and nothing protected |
| `MarkSweep.MarkHeap.LooksPointerp` | src/slib.c:1410-1420 | a word passes exactly when it is the address of an allocated cell of an active heap |
| `MarkSweep.MarkHeap.GcMark` | src/slib.c:1354-1388 | marking from a pointer terminates, marks it and everything reachable from it that was not marked, never leaves the reachable set, and changes nothing but marks |
| `MarkSweep.MarkHeap.ArrayGcMark` | src/sliba.c:70-75 | every element of a lisp array gets marked |
| `MarkSweep.MarkHeap.MarkProtectedRegisters` | src/slib.c:1390-1398 | every protected location gets marked |
| `MarkSweep.MarkHeap.MarkLocationsArray` | src/slib.c:1422-1428 | every word that could be a pointer gets marked |
| `MarkSweep.MarkHeap.MarkAll` | src/slib.c:1319-1338 | saved registers, protected registers and stack together mark exactly the cells reachable from them |
| `MarkSweep.MarkHeap.SweepCell` | src/slib.c:1430-1471 | one step of the sweep keeps or frees one cell, its block with it |
| `MarkSweep.MarkHeap.GcSweep` | src/slib.c:1430-1471 | the sweep over all active heaps rebuilds the free list |
| `MarkSweep.MarkHeap.GcMarkAndSweep` | src/slib.c:1319-1338 | a collection keeps exactly the cells reachable from registers and stack, with kind, contents and data, and every other cell of an active heap is on the new free list |
| `MarkSweep.MarkHeap.ChainHeap` | src/slib.c:1268-1292 | the cells of a new heap are chained up in address order in front of the free list |
| `MarkSweep.MarkHeap.AllocateAheap` | src/slib.c:1268-1292 | a new heap is added exactly when one is left, all its cells free, and nothing else changes |
| `MarkSweep.MarkHeap.GcForNewcell` | src/slib.c:1294-1315 | either there is a cell at the head of the free list, or every heap is allocated and every cell was reachable; the cells left in use are all there were or exactly the reachable ones |
| `MarkSweep.MarkHeap.NewCell` | src/slib.c:694-711 | a new cell has the kind asked for and a clear mark, whatever was reachable survives, and failure means that everything was |
| `MarkSweep.MarkHeap.ConsCell` | src/slib.c:713-718 | a cons of values on the stack: everything reachable keeps its contents, the new cell is none of it, and failure means that all heaps are allocated and all their cells reachable |
| `MarkSweep.MarkHeap.NewFilled` | src/slib.c:749-761 | the same for a cell of any kind without a block, and what the two words of each kind hold: the pointers of a cons or closure in their order, name and value of a symbol, the words of a number or subr |
| `MarkSweep.MarkHeap.SetValueCell` | src/slib.c:1827-1832 | storing the global value of a symbol changes that word alone and keeps the heap in order |
| `MarkSweep.MarkHeap.SetElement` | src/sliba.c:264-291 | storing an element of a lisp array changes that element of its block alone |
| `MarkSweep.MarkHeap.ArCons` | src/sliba.c:345-384 | an array cell with a new block of blanks, zeros or NILs; everything reachable keeps its contents and data, and failure means that every cell there is was reachable |
| `MarkSweep.MarkHeap.GcProtectN` | src/slib.c:993-999 | the range is protected from then on |
| `MarkSweep.MarkHeap.FreelistLength` | src/slib.c:1497-1502 | the count is the free list and the unborn region together |
| `MarkSweep.MarkHeap.NactiveHeaps` | src/slib.c:1492-1495 | the count of the allocated heaps |
| `MarkSweep.MarkHeap.Accounting` | src/slib.c:1492-1502 | allocated, free and unborn cells always add up to the active heaps times the heap size |
| `MarkSweep.MarkHeap.Step` | src/slib.c:694-761 | each step of a program (making a cell of any built-in kind, changing a cons, a value cell or an array element, copying, protecting, collecting) has its whole effect and keeps the heap in order: a collection leaves exactly the cells that registers and stack lead to, with their blocks, and an allocation makes no cell exactly when an operand is bad or they lead to every cell of memory |
| `MarkSweep.MarkHeap.Run` | src/slib.c:1294-1338 | over any run the heap stays in order, the cells add up, at every step the blocks are those that allocated cells own, each allocation or collection leaves whatever the roots lead to as it was, a collection leaves nothing else, and allocations fail only when everything is reachable |
| `MarkSweep.ProtectedKept` | src/slib.c:1319-1338 | what the protected locations lead to survives whatever else is on the stack |
| `Programs.FreesExactly` | src/slib.c:1228-1251 | a block is there after a collection exactly if it belonged to a cell that the roots led to |
| `Bytes.LongReadsBack` | src/sliba.c:748-754 | a long written by `siod_put_long` is read back as itself exactly when it fits 64 bits |
| `FastFormat.SymbolsAreWritten` | src/sliba.c:756-774 | a symbol in the table is a reference by its index; another is spelled out with its length, after an entry for the table when there is one, or is an error when it is too long |
| `FastFormat.ListsAreWritten` | src/sliba.c:784-804 | a pair with an atomic tail, a longer list with its length, dotted or not, and an array with its length |
| `FastFormat.OtherInput` | src/sliba.c:830-894 | what the reader makes of the end of the file, of codes it does not know, of references to nothing, and of a comment with a NUL in it |
| `FastIO.SymbolReadsBack` | src/sliba.c:756-774 | a symbol, spelled out, stored or fetched, reads back as itself and keeps the two tables inverse to each other |
| `FastIO.StoreKeepsStep` | src/sliba.c:768-774 | storing a new symbol under the next index on both sides keeps the tables inverse to each other |
| `FastIO.ReadsBack` | src/sliba.c:776-894 | whatever form `siod_fast_print` writes in full, `siod_fast_read` gives back, stopping right after it, with the tables inverse again |
| `FastIO.ReadsManyBack` | src/sliba.c:861-874 | the elements of a list or array read back in order |
| `FastIO.ArrayReadsBack` | src/sliba.c:921-926 | lisp arrays of any nesting read back |
| `FastIO.ListReadsBack` | src/sliba.c:793-804 | proper and dotted lists read back |
| `FastIO.StreamReadsBack` | src/sliba.c:1684-1686 | a stream of forms reads back in order, nothing is left unread, and the tables end inverse to each other |
| `FastIO.CommentsAreSkipped` | src/sliba.c:839-846 | comment lines in front of a form do not change what is read |
| `FastIO.HeaderIsComments` | src/sliba.c:1671-1683 | the header of a save file is comment lines |
| `FastIO.PrintsExactlyWhenNamesFit` | src/sliba.c:811-822 | printing fails exactly when a symbol that must be spelled out is too long for the token buffer |
| `FastIO.SavedFileLoads` | src/sliba.c:1626-1691 | loading a saved file gives the saved forms in order, with or without the hash table and under any comment lines, exactly when every symbol fits the token buffer |
| `FastIO.BytesReadBackExactly` | src/sliba.c:901-907 | a string or byte array comes back whole exactly when a C int holds its length |
| `FastIO.LongStringIsCut` | src/sliba.c:901-907 | of a string of 2^32 + 1 octets one is read back, without an error on either side |
| `FastIO.ReadIsShort` | src/sliba.c:883-889 | whatever a file holds, the reader comes up with no symbol too long for its token buffer |
| `FastIO.StreamReadsBackExactly` | src/sliba.c:756-822 | forms printed one after the other, errors survived, read back as those forms exactly when every symbol fits the token buffer; a refused symbol never comes back |
| `FastStream.FastPrinter.PrintTable` | src/sliba.c:756-774 | the table step of the printer, in place, writes and remembers what the model of it says |
| `FastStream.FastPrinter.FastPrint` | src/sliba.c:776-828 | the printer, with its loops, writes exactly the octets of the printed form and leaves the table so, also when an error cuts it short |
| `FastStream.FastPrinter.PrintSpine` | src/sliba.c:793-804 | the loop over a list prints its elements in order |
| `FastStream.FastPrinter.PrintElements` | src/sliba.c:921-926 | the loop over an array prints its elements in order |
| `FastStream.FastReader.SkipLine` | src/sliba.c:840-846 | the comment loop ends at a newline, at a NUL or at end of file |
| `FastStream.FastReader.ReadForms` | src/sliba.c:866-873 | the filling loop reads as many forms as the length says, or reports the first fault |
| `FastStream.FastReader.FastRead` | src/sliba.c:830-894 | the reader consumes exactly one form, updating its table, or answers end of file or a fault |
| `FastStream.FastSave` | src/sliba.c:1660-1691 | the file holds comment, header and forms |
| `FastStream.FastLoad` | src/sliba.c:1626-1651 | the load loop reads until the reader answers end of file |
| `TextIO.DecimalLexes` | src/slib.c:2225-2249 | the decimal digits of a whole double lex as that number |
| `TextIO.StringReads` | src/sliba.c:485-528 | the escapes of a printed string are undone, as long as the characters fit the buffer |
| `TextIO.TokenReads` | src/slib.c:2201-2209 | a token ends at a delimiter and swallows it only if it is white space |
| `TextIO.DotReads` | src/slib.c:2211-2223 | a dot between spaces introduces the tail of a dotted list |
| `TextIO.TailReads` | src/slib.c:2211-2223 | the rest of a printed list reads back |
| `TextIO.ArrayPrintsAsList` | src/sliba.c:163-170 | a lisp array prints as a sharp sign and the list of its elements |
| `TextIO.ReadsBack` | src/slib.c:2033-2094 | reading the printed form of any readable datum gives the same datum and consumes exactly its text and at most one white-space character after a token |
| `TextIO.LinesReadBack` | src/slib.c:2096-2100 | forms printed one to a line read back in order up to end of file |
| `TextIO.SymbolReadsBackExactly` | src/slib.c:2166-2249 | a symbol alone reads back exactly when its name is a token that fits the buffer, is no number, and has nothing in it that ends a token or opens another syntax |
| `TextIO.StringReadsBackExactly` | src/sliba.c:101-136 | a string reads back exactly when it has no NUL and fits the token buffer |
| `TextSyntax.PrefixSyntax` | src/slib.c:2166-2199 | 'x is read as (quote x), and the backquote and the three commas as a pair of their internal name and x; a fault in x is one in the whole, which stops where x does |
| `TextSyntax.QuotedForm` | src/slib.c:2177-2178 | a printed form after a quote is read as that form quoted, and nothing else is consumed |
| `TextSyntax.SharpSyntaxes` | src/sliba.c:531-553 | #t is the number 1, #f is NIL, #( starts an array, and anything else after a sharp sign is a fault |
| `TextSyntax.ArraySyntax` | src/sliba.c:531-545 | #( and the rest of a list make an array of its elements in order; a dotted list is a fault |
| `TextSyntax.CommentSyntax` | src/slib.c:2134-2142 | white space, and comments to the end of their line, change nothing |
| `TextSyntax.OctalSyntax` | src/sliba.c:513-523 | a zero after a backslash starts a number in base eight, 8 and 9 counting for what they are, that ends at the first character that is no digit; its low eight bits are the character |
| `TextSyntax.NumberGrammar` | src/slib.c:2225-2249 | a token is a number exactly when it is an optional minus, digits with a point among them or none, at least one digit, and an exponent or none |
| `TextSyntax.DoublesAre` | src/slib.c:2225-2249 | the whole numbers taken for doubles are exactly those with 53 significant bits and an exponent in range |
| `TextSyntax.DecimalIs` | src/slib.c:2051-2057 | how a whole number is printed: its digits without a zero in front, and a minus sign below zero |
| `TextSyntax.PrintsList` | src/slib.c:2044-2049 | elements with single spaces between them, in parentheses, and a dot between spaces in front of an end that is not NIL |
| `TextSyntax.HexDenotes` | src/sliba.c:155-162 | a byte array is printed with two hexadecimal digits for each octet, the high one first |
| `TextIO.TwelveIsANumber` | src/slib.c:2225-2249 | the symbol named 12 reads back as the number |
| `TextIO.NulCutsString` | src/sliba.c:101-136 | a string with a NUL inside reads back as what is in front of it |
| `TextIO.FormSymbolFits` | src/slib.c:2166-2223 | a symbol never comes out of text shorter than its name |
| `TextStream.TextPrinter.Prin1` | src/slib.c:2033-2094 | the printer with its loops puts out exactly the printed form |
| `TextStream.TextPrinter.Prin1List` | src/slib.c:2044-2049 | the loop down a list, dotted or not |
| `TextStream.TextPrinter.StringBody` | src/sliba.c:105-135 | both ways of printing a string put out the same escaped text |
| `TextStream.NothingToEscape` | src/sliba.c:106-109 | a string without special characters is its own escaped text |
| `TextStream.TextReader.FlushWs` | src/slib.c:2134-2142 | white space and comments are skipped up to the first other character |
| `TextStream.TextReader.ReadTopLevel` | src/slib.c:2151-2156 | one form at top level, or end of file |
| `TextStream.TextReader.ReadR` | src/slib.c:2166-2209 | reads the one form there is, or reports the fault, as `TextSyntax` says syntax by syntax |
| `TextStream.TextReader.ReadTokenFrom` | src/slib.c:2200-2209 | the token loop with its buffer limit |
| `TextStream.TextReader.ReadParen` | src/slib.c:2211-2223 | the rest of a list |
| `TextStream.TextReader.ReadQuoted` | src/sliba.c:485-528 | the string loop with its escapes and buffer limit |
| `TextStream.TextReader.ReadSharp` | src/sliba.c:531-553 | the sharp syntaxes |
| `TextStream.LreadTk` | src/slib.c:2225-2249 | the pointer walk over a token decides number or symbol as the grammar says |
| `Evaluator.Innermost` | src/slib.c:1930-1938 | the search along the frames finds the innermost one whose tag matches or is `all`, and none only if there is none |
| `Evaluator.Err` | src/slib.c:585-630 | an error leaves for the innermost `errobj` or `all` frame, or for the top level when there is none |
| `Evaluator.ThrowTo` | src/slib.c:1930-1938 | a throw leaves for the innermost matching frame, and otherwise becomes an error; which argument is tag and which value, `FormRules.ThrowGoes` says |
| `Evaluator.Eval` | src/slib.c:1605-1754 | every evaluation that finishes leaves the chain of catch frames as it found it, and every jump out of it goes to the innermost frame at its start that catches the cause |
| `Evaluator.Call` | src/slib.c:1639-1752 | the same for every kind of function that is called |
| `Evaluator.EvalCatch` | src/slib.c:1918-1928 | a catch that finishes, normally or as the target of a jump, restores the chain; any other jump passes through it |
| `Evaluator.CcallCatch` | src/slibu.c:1665-1681 | the catch for C callers keeps the same discipline for any disciplined C function |
| `Evaluator.JumpLandsExactlyHere` | src/slib.c:1918-1928 | a jump lands at a catch exactly when its tag catches the cause, giving the thrown value; otherwise it goes on to the innermost outer frame |
| `Evaluator.TopLevel` | src/slib.c:1605-1754 | with no frames a program ends normally, or an error reaches the top level; no jump is left over |
| `Steps.EvalMore` | src/slib.c:1605-1754 | one more step of the budget changes no outcome |
| `Steps.OneOutcome` | src/slib.c:1605-1754 | a program has at most one outcome, however many steps it is given |
| `FormRules.ComesOnce` | src/slib.c:1605-1754 | a form in an environment and state comes to one outcome at most, whatever the number of steps; the rules that follow are all about coming to an outcome |
| `FormRules.GlobalRule` | src/slib.c:1619-1624 | a name without a local variable has its global value, or it is an error when there is none |
| `FormRules.LocalRule` | src/slib.c:1619-1621 | a name with a local variable has the value in its cell |
| `FormRules.ListRule` | src/slib.c:1625-1639 | a list comes to what calling the value of its operator comes to; what the operator fails with, the list does |
| `FormRules.MSubrRule` | src/slib.c:1690-1692 | a form that leaves another one to go on with means that one, in the environment it leaves |
| `FormRules.SubrRule` | src/slib.c:1640-1684 | a C function of n arguments is called with the values of n forms, in their order |
| `FormRules.SomeRule` | src/slib.c:1659-1684 | the first argument is evaluated first, and NIL stands in for those that are missing |
| `FormRules.FoldingRule` | src/slib.c:1650-1655 | a subr_2n applies to its first two arguments |
| `FormRules.FoldRule` | src/slib.c:1656-1658 | given more arguments, a subr_2n applies to each result and the next argument, which is evaluated after that result |
| `FormRules.ClosureRule` | src/slib.c:1693-1700 | a closure evaluates its arguments and then its body, in its own environment with one frame more |
| `FormRules.IfRule` | src/slib.c:1863-1869 | `if` evaluates its test, and goes on with its second argument exactly when that is not NIL, otherwise with its third |
| `FormRules.IfMeans` | src/slib.c:1863-1869 | a whole `if` form means its second argument or, after NIL for the test, its third, NIL where there is none |
| `FormRules.LastRule` | src/slib.c:1878-1909 | `begin`, `or` and `and` go on with their last form; `and` without any is true |
| `FormRules.SequenceRule` | src/slib.c:1878-1909 | an earlier form of them is evaluated first; what is not a value ends them, a value other than NIL ends `or`, NIL ends `and` |
| `FormRules.OrMeans` | src/slib.c:1887-1896 | `or` means the value of its first form unless that is NIL, and then what `or` of the others does |
| `FormRules.AndMeans` | src/slib.c:1898-1909 | `and` means NIL when its first form does, and otherwise what `and` of the others does |
| `FormRules.BeginMeans` | src/slib.c:1878-1884 | `begin` means what it does without its first form, in the state that form leaves |
| `FormRules.EachRule` | src/slib.c:1911-1916 | a body is its forms in turn, ended early by an error or a jump, and its value that of the last |
| `FormRules.WhileRule` | src/slib.c:1994-1999 | `while` evaluates the test; NIL ends it with NIL, otherwise the body comes in turn and then the loop again |
| `FormRules.WhileMeans` | src/slib.c:1994-1999 | a whole `while` form whose test comes to NIL comes to NIL; otherwise it is its body in turn and then, unless that ends in an error or a jump, the loop again |
| `FormRules.LambdaRule` | src/slib.c:1871-1876 | `lambda` closes over the environment at hand: the formals, and the one form there is, or a `begin` of the forms |
| `FormRules.SetqRule` | src/slib.c:1837-1838 | `set!` evaluates its second argument and assigns its first |
| `FormRules.SetRule` | src/slib.c:1834-1835 | `set` evaluates both, the name first here |
| `FormRules.DefineRule` | src/slib.c:1849-1861 | `define` of a name evaluates the form, and then defines the name |
| `FormRules.DefineFunctionRule` | src/slib.c:1840-1847 | `define` of (f . formals) means `define` of f as the lambda of the formals and the body |
| `FormRules.CatchRule` | src/slib.c:1911-1928 | `*catch` evaluates its tag and then its body with a frame for it; a body that finishes, or a jump to that frame, ends it with the frames as they were, and any other jump goes on |
| `FormRules.ThrowGoes` | src/slib.c:1930-1938 | `*throw` jumps to the innermost frame that has its first argument for a tag, or is `all`, carrying its second |
| `FormRules.ThrowFails` | src/slib.c:1930-1938 | `*throw` is an error when no frame has its tag or is `all` |
| `FormRules.CatchThrow` | src/slib.c:1911-1938 | a `*catch` whose body throws to its tag finishes with the value thrown and the frames there were before |
| `FormRules.ErrorGoes` | src/slib.c:585-630 | an error jumps to the innermost `errobj` or `all` frame with a fresh pair of message and object, or else to the top level |
| `FormRules.CcallMeans` | src/slibu.c:1665-1681 | the catch for C callers runs the C function with a frame for the tag: what it returns, or what is thrown to that tag, is the value, with the frames there were; anything else goes on |
| `FormRules.CallOfTwo` | src/slib.c:1644-1649 | a C function of two arguments gets the value of the first form and then that of the second |
| `Interpreter.Machine.FindFrame` | src/slib.c:1930-1938 | the walk along the frame list finds the innermost frame for the cause |
| `Interpreter.Machine.EnvLookup` | src/slib.c:1579-1595 | the loop over frames finds the cell of a variable, or nothing, or reports damage |
| `Interpreter.Machine.EnvLookupFrame` | src/slib.c:1584-1592 | the loop over formals and actuals of one frame |
| `Interpreter.Machine.SetVariable` | src/slib.c:1827-1832 | assignment in place |
| `Interpreter.Machine.DefineVariable` | src/slib.c:1855-1861 | an existing variable is assigned; a new one is put in front of the innermost frame, in place |
| `Interpreter.Machine.LevalDefine` | src/slib.c:1849-1861 | `define`, with its rewriting of a function definition to a lambda |
| `Interpreter.Machine.SyntaxOfDefine` | src/slib.c:1840-1847 | the rewriting, as often as the name is itself a list |
| `Interpreter.Machine.LevalSetq` | src/slib.c:1837-1838 | `set!`: the init, then the name, then the assignment |
| `Interpreter.Machine.LevalLambda` | src/slib.c:1871-1876 | `lambda`: a closure over one form, or over the forms as a `begin` |
| `Interpreter.Machine.LetMacroInPlace` | src/slib.c:1974-1986 | the let macro, its loops consing and its form rewritten in place |
| `Interpreter.Machine.LetStarMacroInPlace` | src/slib.c:1948-1957 | the let* macro, in place |
| `Interpreter.Machine.LetrecMacroInPlace` | src/slib.c:1959-1966 | the letrec macro, its loop consing and its form rewritten in place |
| `Interpreter.Machine.ExtendEnv` | src/slib.c:1572-1575 | the cells of a new frame |
| `Interpreter.Machine.Leval` | src/slib.c:1605-1754 | the loop that goes on with a new form and environment computes what the recursive definition does, whose rules, form by form, are in `FormRules` |
| `Interpreter.Machine.LevalArgs` | src/slib.c:1559-1570 | the argument list is built by hanging cell on cell |
| `Interpreter.Machine.LevalFold` | src/slib.c:1653-1661 | the loop of a subr_2n |
| `Interpreter.Machine.LevalWhile` | src/slib.c:1994-1999 | the loop of `while` |
| `Interpreter.Machine.LevalCatch` | src/slib.c:1918-1928 | frames are pushed and popped in place; a finished catch leaves the chain as it was |
| `Interpreter.Machine.LevalSequence` | src/slib.c:1878-1909 | the loops of `begin`, `or` and `and` |
| `Application.EvalQuoted` | src/slib.c:1988-1989 | a quoted value evaluates to that value, in any memory that has only grown |
| `Application.SomeQuoted` | src/slib.c:1641-1685 | evaluating quoted arguments in turn gives the values, NIL for missing ones |
| `Application.ArgsQuoted` | src/slib.c:1559-1570 | evaluating a list of quoted values makes a fresh list of them and changes nothing else |
| `Application.FoldQuoted` | src/slib.c:1649-1661 | the fold of a subr_2n over quoted forms is its fold over the values |
| `Application.ApplyAgrees` | src/slib.c:1756-1825 | calling with quoted values and applying to a list of the values have the same outcome, for every kind of function that can be applied; the list is the one given, unless the function gets the list itself, and then it is the one the evaluator makes |
| `Application.Funcall1Agrees` | src/sliba.c:1465-1478 | the short cut for one argument has the outcome of applying to the one-element list given, for a subr of one argument or a closure over C code, and otherwise to a new one |
| `Application.Funcall2Agrees` | src/sliba.c:1480-1488 | the short cut for two arguments has the outcome of applying to the two-element list given, for a subr of two arguments or more, and otherwise to a new one |
| `Environments.SoundFinds` | src/slib.c:1579-1595 | with actuals enough in every frame a lookup never fails |
| `Environments.FoundIsOwned` | src/slib.c:1579-1595 | the cell found for a name belongs to that name in some frame |
| `Environments.LookupUnmoved` | src/slib.c:1827-1832 | storing a value never changes where any variable is found |
| `Environments.SetLocal` | src/slib.c:1827-1832 | after an assignment the variable has the new value, and in every environment each other variable keeps its value; all frames stay sound |
| `Environments.SetGlobal` | src/slib.c:1827-1832 | an assignment without a local variable changes the global value alone |
| `Environments.SetSeenExactly` | src/slib.c:1579-1595 | after an assignment a local variable has the new value, except exactly when the first frame that binds it has it as its dotted parameter, which keeps its value |
| `Environments.RestKeepsItsValue` | src/slib.c:1579-1595 | a concrete environment where an assignment to the dotted parameter is lost |
| `Environments.DefineLocal` | src/slib.c:1849-1861 | the definition of a new local variable is seen there, changes no other variable anywhere and nothing where the frame is not seen, and leaves every frame with actuals enough |
| `Environments.DefineExisting` | src/slib.c:1849-1861 | a definition of a local variable that is there gives it the new value, and in every environment each other variable keeps its value |
| `Environments.FrameBinds` | src/slib.c:1579-1595 | a frame with actuals enough gives each formal its actual and a dotted parameter the list of the actuals left over |
| `Environments.ExtendBinds` | src/slib.c:1572-1575 | a new environment gives each formal its actual, and a dotted parameter or a single one for all of them the actuals left over; every other name it lets through; its frames have actuals enough |
| `LetForms.SplitGives` | src/slib.c:1976-1981 | the first loop of the let macro collects names and inits in reverse |
| `LetForms.ReverseGives` | src/slib.c:1968-1972 | reversing makes a fresh list in the opposite order |
| `LetForms.ExpandLetGives` | src/slib.c:1974-1986 | the let macro rewrites the form to names and inits in their order and one body form, and changes nothing else |
| `LetForms.MacroStep` | src/slib.c:1744-1747 | a form headed by a syntactic name is handed to its macro, quoted, and evaluation goes on with the result |
| `LetForms.LetFirstTime` | src/slib.c:1974-1986 | the first evaluation of a let form rewrites it in place and goes on with it |
| `LetForms.LetEachTime` | src/slib.c:1940-1946 | every evaluation of the rewritten form evaluates the inits in the environment of the form and the body in one more frame |
| `LetForms.LetMeans` | src/slib.c:1940-1986 | so the first evaluation of a let form means what every later one does |
| `LetForms.PeelOne` | src/slib.c:1948-1957 | let* with several bindings becomes a let of the first around a let* of the others |
| `LetForms.LetStarMeans` | src/slib.c:1948-1957 | the first evaluation of let* goes on as a let of the first binding around a let* of the others |
| `LetForms.LetStarOfOne` | src/slib.c:1948-1957 | let* with at most one binding is let |
| `LetForms.SplitLetrecGives` | src/slib.c:1961-1964 | the loop of the letrec macro makes empty bindings and assignments, both in reverse |
| `LetForms.ExpandLetrecGives` | src/slib.c:1959-1966 | letrec becomes a let of empty bindings around the assignments, the last first, and the body |
| `LetForms.LetrecMeans` | src/slib.c:1959-1966 | the first evaluation of a letrec form goes on as a let of its names, bound to nothing, around assignments, the last first, and the body |
| `LetMeanings.BodyMeans` | src/slib.c:1878-1884 | a body of several forms, made a `begin`, means its forms in turn |
| `LetMeanings.LetStarInSequence` | src/slib.c:1948-1957 | let* with any number of bindings, at its first evaluation and at every later one, when it has been rewritten in part or throughout: each init is evaluated where the names before it are bound, each name gets a frame of its own, and the body is evaluated in the last |
| `LetMeanings.LetStarOfNone` | src/slib.c:1948-1957 | let* without bindings, rewritten or not, evaluates its body in an empty frame |
| `LetMeanings.QuietInit` | src/slib.c:1940-1957 | an init that only adds to memory leaves the rest of the form to be evaluated as it was |
| `LetMeanings.AssignsInTurn` | src/slib.c:1959-1966 | the rewritten body runs the assignments one after the other and then the body forms |
| `LetMeanings.LetrecAssigns` | src/slib.c:1959-1966 | letrec: every name is bound to NIL in one new frame; there each init is evaluated and assigned, the last binding first, and then the body is evaluated |
| `LetMeanings.LetrecAgain` | src/slib.c:1959-1966 | and so does every later evaluation of the rewritten form |
| `LetMeanings.LetrecOfLambdas` | src/slib.c:1959-1966 | where the inits are lambda forms the body is evaluated with every name bound to its closure over that very environment |
| `LetMeanings.LambdasAgain` | src/slib.c:1959-1966 | at every later evaluation too |
| `Md5.FoldAppend` | src/md5.c:119-157 | the transform over whole blocks of a message goes on over the rest from where it was |
| `Md5.FoldMore` | src/md5.c:119-157 | what is left in the buffer and the new octets go on from the old state |
| `Md5.BitsAdded` | src/md5.c:127-132 | the two count words with their explicit carry are the length in bits modulo 2^64 |
| `Md5.GuardIsExact` | src/md5.c:144 | the 32-bit guard of the block loop stops it at the last complete block exactly when buffered and new octets number less than 2^32 |
| `Md5.GuardWraps` | src/md5.c:144 | it does wrap: with 63 octets buffered and 2^32 - 1 new ones it holds where fewer than a block is left |
| `Md5.CountBits` | src/md5.c:168 | the encoded count words are the length in bits modulo 2^64 |
| `Md5.PaddedIsWhole` | src/md5.c:171-179 | padding and length end on the first block boundary that leaves room for them |
| `Md5.PaddedShape` | src/md5.c:161-185 | a padded message is the message, one octet 0x80, zeros, and its length in bits modulo 2^64 |
| `Md5.EncodedWords` | src/md5.c:284-295 | the octets of a digest are its words, least significant octet first |
| `Md5.WholeAdds` | src/md5.c:119-157 | the whole blocks of two parts, the first of which ends on a boundary, are those of both together |
| `Md5Block.MD5Transform` | src/md5.c:189-264 | the 64 steps as written out, each with its own constant, rotation and word of the block, compute the transform that is defined by the tables of RFC 1321 |
| `Md5Suite.EmptyDigest` | src/md5.c:104-264 | the digest of the empty message is d41d8cd98f00b204e9800998ecf8427e, as appendix A.5 of RFC 1321 has it |
| `Md5.Context.constructor` | src/md5.c:104-113 | a fresh context stands for the empty message |
| `Md5.Context.Update` | src/md5.c:119-157 | adding octets to a context that stands for a message makes it stand for the longer message |
| `Md5.Context.TakeBlocks` | src/md5.c:136-148 | the block loop transforms every complete block and stops before the rest |
| `Md5.Context.Final` | src/md5.c:161-185 | the digest is that of the whole message padded as `Md5.PaddedShape` says, and the context is cleared |
| `Md5.DigestOfPieces` | src/md5.c:104-185 | whatever way a message is cut into pieces of at most 2^32 - 64 octets, the digest is that of the whole message, for any block transform |
| `Md5.Md5OfPieces` | src/md5.c:189-277 | in particular with the transform of RFC 1321 |
| `HashTables.EqualIsSameTree` | src/sliba.c:601-625 | equal? is equality of structure, with identity where only that counts, and so an equivalence |
| `HashTables.VectorsSame` | src/sliba.c:654-661 | two lisp arrays are equal? exactly when their structures are the same |
| `HashTables.EqualSameHash` | src/sliba.c:557-596 | equal keys have the same hash, in range |
| `HashTables.EqualSameSpine` | src/sliba.c:567-572 | the hash loop down the CDRs agrees on equal lists |
| `HashTables.EqualSameElements` | src/sliba.c:694-700 | the hash loop over elements agrees on equal arrays |
| `HashTables.Hash` | src/sliba.c:557-596 | every hash is in the range of the table |
| `HashTables.IsEqual` | src/sliba.c:601-625 | the comparison with its loops decides equal? |
| `HashTables.Sxhash` | src/sliba.c:557-596 | the hash with its loops |
| `HashTables.OnePlace` | src/sliba.c:715-728 | a structure has at most one place in a table |
| `HashTables.MapsOnce` | src/sliba.c:715-728 | so a table maps a structure to one value at most |
| `HashTables.BucketDecides` | src/sliba.c:705-717 | searching the bucket of a key finds an entry exactly when the table has one for its structure |
| `HashTables.HashTable.constructor` | src/sliba.c:345-384 | a new table is empty |
| `HashTables.HashTable.Index` | src/sliba.c:705-713 | the index is in range, so the inconsistency error cannot happen |
| `HashTables.HashTable.Assoc` | src/sliba.c:730-737 | the association loop finds the first entry with an equal key |
| `HashTables.HashTable.Href` | src/sliba.c:715-717 | the value stored last for an equal key, NIL if there is none |
| `HashTables.HashTable.Hset` | src/sliba.c:719-728 | afterwards the table maps this structure to the value and every other one as before |
| `HashTables.UnfoldGrows` | src/sliba.c:601-625 | making objects changes no structure there is |
| `HashTables.HashGrows` | src/sliba.c:557-596 | nor its hash |
| `HashTables.HashTable.Extend` | src/sliba.c:345-384 | a table maps what it did when objects are made |
| `HashTables.HashTable.Run` | src/sliba.c:705-728 | over any run of stores, with keys made at any time, each structure has the value stored for it last |
| `Obarray.BucketSearch` | src/slib.c:944-954 | searching the bucket of a name finds the symbol that searching the whole list would |
| `Obarray.ListedIffInBucket` | src/slib.c:939-965 | a symbol is on the list exactly when it is in the bucket of its name |
| `Obarray.BucketStays` | src/slib.c:960-963 | a new symbol leaves the other buckets as they were |
| `Obarray.SymbolTable.Intern` | src/slib.c:939-965 | the one symbol of that name, made and put in front of list and bucket exactly when there was none |
| `Obarray.SymbolTable.InternAll` | src/slib.c:939-974 | over any run of interns two give the same cell exactly when the names are the same |
| `Base64.BitsInOrder` | src/sliba.c:1266-1284 | the six-bit groups are the bits of the octets in order, the high ones first |
| `Base64.Examples` | src/sliba.c:1251-1284 | the encodings of one, two and three octets |
| `Base64.EncodedLength` | src/sliba.c:1251-1265 | the encoded text has four characters for every three octets begun, none of them NUL |
| `Base64.DecodeEncode` | src/sliba.c:1251-1332 | decoding undoes encoding for every sequence of octets |
| `Base64.EncodeDecodeExactly` | src/sliba.c:1286-1332 | encoding undoes decoding exactly when the unused bits before the padding are zero |
| `Base64.LastOfGroup` | src/sliba.c:1316-1331 | the same for the last group |
| `Base64.Base64Encode` | src/sliba.c:1251-1284 | the loop fills a buffer of the size computed beforehand exactly |
| `Base64.Base64Decode` | src/sliba.c:1286-1332 | the loop decodes group after group, NIL for a character that is no letter, an error for a bad length |
| `UrlCoding.Alphabet` | src/slibu.c:1345-1368 | which characters stand for themselves, and that a space becomes a plus sign and every other one a percent sign and two digits |
| `UrlCoding.DecodeEncode` | src/slibu.c:1345-1396 | decoding undoes encoding |
| `UrlCoding.UrlEncode` | src/slibu.c:1345-1368 | the counting pass predicts exactly the octets the writing pass puts out |
| `UrlCoding.ScanAndDecode` | src/slibu.c:1374-1383 | the counting pass accepts what the writing pass decodes, and counts two too many for every percent sign |
| `UrlCoding.CountIsExactWhen` | src/slibu.c:1374-1386 | the count is the number of octets written exactly when there is no percent sign |
| `UrlCoding.PercentIsCountedThrice` | src/slibu.c:1374-1383 | the text %41 decodes to one octet and is counted as three |
| `UrlCoding.CountPass` | src/slibu.c:1374-1383 | the first loop rejects malformed text and counts its whole length |
| `UrlCoding.UrlDecode` | src/slibu.c:1370-1396 | the decoded text and its NUL stand at the front of a string as long as the input, filling it exactly when there is no percent sign |
| `Quicksort.JoinOrdered` | src/sliba.c:1502-1511 | a sorted part below the mark, the mark, and a sorted part not below it are in order together |
| `Quicksort.Hang` | src/sliba.c:1459-1463 | hanging a list on the last cell of another joins them |
| `Quicksort.ListMemory.Last` | src/sliba.c:1438-1446 | the last cell of a list |
| `Quicksort.ListMemory.Nconc` | src/sliba.c:1459-1463 | joining in place changes only cells of the first list |
| `Quicksort.ListMemory.Partition` | src/sliba.c:1502-1508 | every other element is consed onto the list of its side |
| `Quicksort.ListMemory.Qsort` | src/sliba.c:1490-1511 | for any pivots the result is a permutation in which no later element is less than an earlier one, in new cells, with every old cell unchanged; an improper list is an error |

## Left out

- The read-eval-print loop, command line, signals, interrupt flags, stack-limit checks, timing and progress messages.
- Operating-system calls, files as such, dynamic loading and CGI in src/slibu.c.
- Floating-point functions and the `%g` format: numbers in the textual format are whole ones a double holds exactly.
- User-defined cell types and src/trace.c; the marker drops what a user hook returns, and the traced-closure hook relies on that being followed.
- Marks of a freshly allocated heap: the source sets only the type of its cells, and the model takes new memory to be unmarked.
- A user `*after-gc*` function, and the `debugging_newcell` checks.
- Stop-and-copy when two protected locations are the same or two arrays share a block: both are assumed distinct, as every caller in the source keeps them; a step that would protect a location twice does nothing.
- In runs a C variable is NIL when it gets protected, and an allocation that finds no storage leaves the program to go on.
- The NUL that the source puts after the characters of a string is not part of the contents of a block.
- The heap size and the number of heaps are positive; sizes that overflow `malloc` are not modelled.
- MarkSweep.MarkHeap.GcMark: recursion depth is not bounded, as it is not in the source.
- Double and long arrays in the binary format: the printer writes an octet count that the reader takes for an element count.
- A binary file that ends inside a form is a fault in the model; the source goes on with uninitialised memory or with its table as a datum.
- FastIO.SavedFileLoads: sharing inside the saved data is not kept by the format, and cyclic data does not print; forms are trees.
- Byte, long and double arrays in the textual format have no syntax the reader accepts; reading `#.` evaluates a form and is a fault in the model.
- Backquote and comma are read as the source reads them, but nothing prints them back.
- The evaluation history, evaluation hooks of user types, `cond`, `prog1` and the other special forms outside src/slib.c.
- Evaluator.Call: the arguments of subr_3 to subr_5 are evaluated from left to right; C leaves the order open.
- Evaluator.Err: an error raised while another is being reported is not modelled, nor `quit` messages without text.
- Application.ApplyAgrees: a closure over a form or an lsubr gets the argument list itself and can tell one from another, so there, and only there, the list applied to is the one the evaluator makes. A subr_2n is assumed to do no more to memory than add to it, as the arithmetic functions that are subr_2n's do.
- Environments.SetLocal: argument lists are unshared, and a dotted rest parameter, of which the source sets a copy, is left to `Environments.SetSeenExactly`.
- LetForms.LetMeans: the syntactic names and the name of the internal let are assumed to keep their initial meaning, and a form not to be part of itself or of the environment.
- Md5.Context.Update: octets are handed over as a sequence, so reading past the end of the input is excluded by the precondition that `Md5.GuardIsExact` shows to be exact.
- LetMeanings.LetStarInSequence: an init that rewrites the rest of its own form while it is evaluated is excluded; so are such inits in `LetMeanings.LetrecAssigns` and `LetMeanings.LetrecAgain`.
- The MD5 model is of machines where `UINT4`, an `unsigned long`, has four octets, as md5.h says it has; the binary format is the one its header describes, where a `long` has eight.
- That MD5 has no collisions, or any other property of it as a hash: only that the code computes it.
- The table of small numbers that `siod_flocons` shares (`inums`): every number made is a new cell.
- HashTables.HashTable.Hset: objects may be made at any time, but keys are assumed not to change while they are in a table, and the memory they live in to have no cycles.
- Symbols with names that have negative `char` values.
- Quicksort.ListMemory.Qsort: the comparison and the key function are pure functions here; in the source they may be any closures.
- Base64 and the URL coder use letters and digits of the C locale.
- HTML coding, string functions, association lists, sorting by string and the remaining list functions would only add easy members.
