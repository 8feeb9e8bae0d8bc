# A verified model of the simulator's core routines

This project models, in Dafny, the parts of the repository in which a small slip stays invisible: the matrix
inversion and the rotation algebra of `simMath`, the lock and the shared-memory transfer of the remote API, the
marshalling of Lua calls, the socket protocol, the template preprocessor, and the checker that grades production
logs. For each it proves what the code is for, on every input or over every run.

| file | models |
|---|---|
| `LinearAlgebra.dfy`, `GaussJordan.dfy`, `MMatrix.dfy` | `CMatrix`: product, and the in-place Gauss-Jordan inverse with full pivoting |
| `ReentrantLock.dfy` | the re-entrant lock made of two plain mutexes, an owner id and a level |
| `SharedMemory.dfy` | the chunked transfer over a shared buffer with a flag |
| `Packets.dfy` | the socket protocol with headed packets and fragmented reads |
| `LuaData.dfy` | `CLuaFunctionData`: flattening typed items into six buffers, and reading them back |
| `PyStrings.dfy`, `BlockTree.dfy`, `BlockWords.dfy`, `PyCpp.dfy`, `PyCode.dfy`, `PyNesting.dfy` | the template preprocessor: lines, block tree, the words of its statements, generated code, output, and the nesting that its indentation keeps |
| `Checker.dfy`, `CheckerMeaning.dfy` | the production checker: plan, log, verdict, and what these mean line by line |
| `Quaternions.dfy`, `RotationMatrices.dfy`, `RigidTransforms.dfy` | quaternions, rotation matrices, rigid transformations |
| `Common.dfy` | the types several modules share |

`dafny verify dfyconfig.toml` checks the whole project.

## How it is modelled

- What the source updates in place is a class with the same fields, or an array: `CMatrix` keeps its entries in one
  flat buffer, `Block` of the preprocessor is an object on the heap that is put into its parent's list before it is
  filled, `Checker` has the program's global tables as fields, an `SLuaCallBack` is a set of arrays, `C4X4Matrix`
  is inverted component by component. Every method is proved against a function or a predicate on values, and what
  the routine promises is proved of that.
- The two protocols of `extApiPlatform.c` are state machines with one step for each statement (and for each byte
  copied), and all interleavings are runs.
- The operating system is a parameter: `Send` may take part of the bytes, `Recv` returns any positive number of
  bytes that have arrived, any call may fail or time out, unless a connection is `reliable`.
- Generated Python code is run by a reader of literals, arguments and calls; what an expression evaluates to is any
  function from its text, which may also fail.
- Floating-point numbers are reals. `sqrtf` is a parameter that is only known to be non-negative and to have the
  argument as its square where that is not negative.
- Python exceptions are results: `Crashed`, `Err`, or a `crash` flag.

Where code and comments disagree the code is followed. The comment of the checker on evacuations without a product
says that they are reported; the code looks up the count of product 0, finds that of product 6, and reports them
exactly when product 6 is not planned (`Checker.EmptyEvacuationReported`). The comment in the checker that more exits
than appearances are impossible is not relied on: such a log makes the search run off the table, and `Checker.Check`
says exactly when.

In the preprocessor the constructor of `Line` compares a character with a constant of two and so never strips a
newline, and the empty block for a close tag gets a line number that is one too large; both are kept
(`PyCpp.MakeLine`, `BlockTree.BlankFor`).

Properties that fail for some inputs, with the exact condition under which they hold:

- a message sent in packets arrives exactly when it needs at most 65536 packets, and otherwise as a proper beginning
  (`Packets.MessageRoundTrip`; 65537 bytes sent one by one are an instance, `Packets.OversizedMessageIsCut`);
- the Lua items that are read come back as written exactly when none of them holds a NUL, whatever the items behind
  them hold (`LuaData.RereadIsExact`);
- a template without Python is put out unchanged exactly when it has no carriage return and no NUL
  (`PyCode.TextIsUnchanged`);
- a template is recovered from its tree but for one newline, missing exactly when it ends in a line of Python that
  is to be continued (`PyCpp.TreeKeepsTemplate`);
- rotating by a quaternion is multiplying by its matrix exactly for unit quaternions (`Quaternions.UnitRotates`);
- the in-place inverse of a transformation undoes it exactly when the matrix is orthogonal
  (`RigidTransforms.InverseUndoes`);
- `C4X4Matrix::setMultResult` leaves the product when the result is neither operand; over the left operand, over the
  right one, and over both, it does so exactly when the entries already replaced make no difference to those computed
  later (`RigidTransforms.LeftSafe`, `RightSafe`, `BothSafe`: conditions on the operands, one per column, that for two
  quarter turns do not hold; `RigidTransforms.ProductComesOut`, `RigidTransforms.QuarterTurnIsNotSafe`);
- the product of two poses with its quaternion normalized is their product exactly when the product of the quaternions
  is a unit quaternion (`RigidTransforms.C7Vector.Times`).

## Model

| member | source | states |
|---|---|---|
| `MMatrix.CMatrix.Inverse` | CoppeliaSim/programming/simMath/MMatrix.cpp:265-366 | for every size and every square matrix: true exactly when the matrix is not singular, and then what is left in place is a two-sided inverse; of the exits without a result only the zero pivot is ever taken |
| `MMatrix.CMatrix.FindPivot` | CoppeliaSim/programming/simMath/MMatrix.cpp:280-306 | the entry found is the largest one in unused rows and columns, and a column marked twice never occurs |
| `MMatrix.CMatrix.Round` | CoppeliaSim/programming/simMath/MMatrix.cpp:278-348 | after each round the matrix in place is still linked to the original one, exactly the pivots used so far are marked, and a zero pivot means that the original is singular |
| `MMatrix.CMatrix.Unscramble` | CoppeliaSim/programming/simMath/MMatrix.cpp:350-361 | exchanging columns back in reverse order undoes all row exchanges |
| `MMatrix.CMatrix.ReduceRow` | CoppeliaSim/programming/simMath/MMatrix.cpp:338-347 | in-place reduction of a row by the pivot row, the other rows unchanged |
| `MMatrix.CMatrix.Times` | CoppeliaSim/programming/simMath/MMatrix.cpp:120-133 | the loops compute the matrix product, each entry the dot product of a row and a column |
| `LinearAlgebra.MulActs` | CoppeliaSim/programming/simMath/MMatrix.cpp:120-133 | for all fitting shapes the product maps a vector as its factors do, one after the other |
| `LinearAlgebra.MulAssociates` | CoppeliaSim/programming/simMath/MMatrix.cpp:120-133 | products of matrices of any fitting shapes associate |
| `GaussJordan.RoundKeepsLink` | CoppeliaSim/programming/simMath/MMatrix.cpp:307-347 | exchanging rows and eliminating keeps, in both directions, the equivalence between the original system and the half-transformed one in exchanged unknowns |
| `GaussJordan.PivotKeepsSystem` | CoppeliaSim/programming/simMath/MMatrix.cpp:328-347 | one in-place elimination exchanges an unknown with a result and keeps the solutions |
| `GaussJordan.ColumnSwapUndoesExchange` | CoppeliaSim/programming/simMath/MMatrix.cpp:350-361 | a column exchange takes the last row exchange off the link |
| `GaussJordan.UnscrambledIsInverse` | CoppeliaSim/programming/simMath/MMatrix.cpp:350-366 | a matrix fully unscrambled is the inverse on both sides |
| `GaussJordan.NoPivotMeansSingular` | CoppeliaSim/programming/simMath/MMatrix.cpp:325-327 | when all free entries are zero some nonzero vector is mapped to zero by the original matrix |
| `ReentrantLock.MutualExclusion` | CoppeliaSim/programming/remoteApi/extApiPlatform.c:347-387 | in every run of any number of threads at most one has the lock; it holds the main mutex, and between its calls the owner id is its own and the level is its nesting depth |
| `ReentrantLock.StepKeepsInv` | CoppeliaSim/programming/remoteApi/extApiPlatform.c:347-387 | every statement of every thread keeps the invariant on mutexes, owner and level |
| `ReentrantLock.StepRefines` | CoppeliaSim/programming/remoteApi/extApiPlatform.c:347-387 | each statement acquires or releases one level of an abstract re-entrant lock, exactly at the write of the level, or leaves that lock alone |
| `ReentrantLock.LockReturnsHeld` | CoppeliaSim/programming/remoteApi/extApiPlatform.c:330-363 | the two statements that return from lock leave it held by the caller, as often as it is nested |
| `ReentrantLock.UnlockReturnsReleased` | CoppeliaSim/programming/remoteApi/extApiPlatform.c:365-388 | an unlock call gives one level back, and frees the main mutex exactly at the last one |
| `ReentrantLock.LockCallAcquires` | CoppeliaSim/programming/remoteApi/extApiPlatform.c:330-363 | in every run, from a call of lock to the next time the thread is outside: it then has the lock once more than at the call, and the main mutex is its own |
| `ReentrantLock.UnlockCallReleases` | CoppeliaSim/programming/remoteApi/extApiPlatform.c:365-388 | likewise after a call of unlock it has the lock once less, and not the main mutex if that was the last time |
| `ReentrantLock.LockStaysOrHolds` | CoppeliaSim/programming/remoteApi/extApiPlatform.c:347-363 | a statement of lock leads to another one, nesting depth unchanged, or out of the routine with the lock held once more; there is no other way out |
| `ReentrantLock.UnlockStaysOrReleases` | CoppeliaSim/programming/remoteApi/extApiPlatform.c:376-387 | a statement of unlock leads to another one, or out with one level given back, the lock free if it was the last |
| `ReentrantLock.NoDeadlock` | CoppeliaSim/programming/remoteApi/extApiPlatform.c:407-447 | in every reachable state with a thread inside lock or unlock some thread can step, unless a thread outside owns the lock |
| `ReentrantLock.NoHoldAndWait` | CoppeliaSim/programming/remoteApi/extApiPlatform.c:407-447 | a waiting thread does not hold the auxiliary mutex, and does not wait for a main mutex it holds |
| `ReentrantLock.CallsFinish` | CoppeliaSim/programming/remoteApi/extApiPlatform.c:407-447 | without new calls the number of steps is bounded in every interleaving |
| `SharedMemory.BytesAreConserved` | CoppeliaSim/programming/remoteApi/extApiPlatform.c:608-701 | at every point of every run delivered, received, in-flight and unsent bytes together are the bytes to be sent |
| `SharedMemory.DeliveredIsPrefix` | CoppeliaSim/programming/remoteApi/extApiPlatform.c:608-701 | at every point of every run, also with timeouts, the messages delivered are the first ones sent |
| `SharedMemory.EveryRunDelivers` | CoppeliaSim/programming/remoteApi/extApiPlatform.c:608-701 | without timeouts every run is bounded, and one that cannot go on has delivered every message |
| `SharedMemory.NoOverwrite` | CoppeliaSim/programming/remoteApi/extApiPlatform.c:622-653 | header and bytes change only by the sender, with the flag lowered and no chunk in flight or being read |
| `SharedMemory.SendKeepsInv` | CoppeliaSim/programming/remoteApi/extApiPlatform.c:622-653 | every statement of the sender keeps the invariant on buffer, counters and chunk in flight |
| `SharedMemory.RecvKeepsInv` | CoppeliaSim/programming/remoteApi/extApiPlatform.c:668-697 | every statement of the receiver keeps it |
| `SharedMemory.SenderStopsOnlyToRest` | CoppeliaSim/programming/remoteApi/extApiPlatform.c:622-653 | the sender is stuck exactly when it is done, waits for the flag or gave up: no copy leaves its buffers |
| `SharedMemory.ReceiverStopsOnlyToRest` | CoppeliaSim/programming/remoteApi/extApiPlatform.c:668-697 | the same for the receiver |
| `Packets.MessageRoundTrip` | CoppeliaSim/programming/common/socketOutConnection.cpp:59-93 | what a receiver makes of a message and any bytes behind it is a beginning of the message, and the whole of it, with those bytes left, exactly when it needs at most 65536 packets |
| `Packets.SessionRoundTrip` | CoppeliaSim/programming/common/socketInConnection.cpp:73-100 | any sequence of messages of at most 65536 packets each is parsed message by message, in order |
| `Packets.Exchange` | CoppeliaSim/programming/common/socketInConnection.cpp:73-100 | over a reliable connection the messages one side sends are the messages the other side gets, in order, however the bytes are fragmented, and nothing is left over |
| `Packets.OversizedMessageIsCut` | CoppeliaSim/programming/common/socketOutConnection.cpp:68-93 | 65537 bytes in packets of one byte do not arrive |
| `Packets.PayloadsOfMessage` | CoppeliaSim/programming/common/socketInConnection.cpp:102-135 | the payloads are together the message, none is empty, all but the last are full |
| `Packets.PayloadCount` | CoppeliaSim/programming/common/socketInConnection.cpp:109-120 | their number is the ceiling of the size over the room in a packet |
| `Packets.Connection.CountPackets` | CoppeliaSim/programming/common/socketInConnection.cpp:109-120 | the counting loop ends with the number of payloads the sending loop cuts |
| `Packets.Connection.SendData` | CoppeliaSim/programming/common/socketOutConnection.cpp:59-93 | true: exactly the packets of the message went out, each with the count of those behind it; false: only a beginning of them did |
| `Packets.Connection.SendSimplePacket` | CoppeliaSim/programming/common/socketOutConnection.cpp:125-147 | header and payload go out, and true is returned only if all did |
| `Packets.Connection.Fill` | CoppeliaSim/programming/common/socketInConnection.cpp:166-219 | however the bytes arrive in fragments, the buffer gets the next bytes of the stream and nothing is skipped |
| `Packets.Connection.ReceiveSimplePacket` | CoppeliaSim/programming/common/socketInConnection.cpp:166-219 | a result that is no error is the packet at the head of the stream, and what follows it is left |
| `Packets.Connection.ReceiveData` | CoppeliaSim/programming/common/socketInConnection.cpp:73-100 | data returned is the message at the head of the stream; on a reliable connection there is one exactly when the stream begins with one; never any from a stream with wrong bytes at its head or cut short |
| `Packets.PacketIsRead` | CoppeliaSim/programming/common/socketInConnection.cpp:166-219 | a packet is read if and only if the stream begins with its two bytes, its size, its count and its payload |
| `Packets.FramesAreRead` | CoppeliaSim/programming/common/socketInConnection.cpp:73-100 | packets of which only the last announces none behind it are read as one message |
| `Packets.OnlyFramesAreRead` | CoppeliaSim/programming/common/socketInConnection.cpp:73-100 | whatever is read as a message was such packets, and what is left is what followed them |
| `Packets.OthersAreRefused` | CoppeliaSim/programming/common/socketInConnection.cpp:193-212 | a stream with another first or second byte, or shorter than its header announces, gives no message |
| `LuaData.RoundTrip` | CoppeliaSim/programming/common/luaFunctionData.cpp:589-787 | arguments written and read against a list that fits are accepted, all of them, and come back exactly when no string holds a NUL |
| `LuaData.RereadIsExact` | CoppeliaSim/programming/common/luaFunctionData.cpp:141-152 | of strings cut at NULs the first n items come back as written if and only if none of these n holds a NUL, whatever the later ones hold |
| `LuaData.Write` | CoppeliaSim/programming/common/luaFunctionData.cpp:409-587 | the block has the types and sizes of all items, and six buffers exactly as long as and equal to what the items put into them |
| `LuaData.SizePass` | CoppeliaSim/programming/common/luaFunctionData.cpp:419-520 | the counters are the lengths the filling pass needs |
| `LuaData.FillPass` | CoppeliaSim/programming/common/luaFunctionData.cpp:521-585 | every write is inside its buffer and each buffer ends filled exactly |
| `LuaData.ItemFits` | CoppeliaSim/programming/common/luaFunctionData.cpp:521-585 | the segments of an item begin where those of the items before it end, and end inside the buffers |
| `LuaData.Read` | CoppeliaSim/programming/common/luaFunctionData.cpp:31-213 | success exactly when enough arguments are there, those read are of the types expected and as large as asked for, and a nil that ends the reading comes behind the required ones; the data are the items up to there, each fitting what was expected of it; otherwise the error is that of the first argument that does not fit |
| `LuaData.ReadArgument` | CoppeliaSim/programming/common/luaFunctionData.cpp:49-211 | one argument is accepted exactly when its type is the expected one and a table or buffer has the least size, with the error that tells which of these failed; the cursors then stand at the segments of the next item |
| `LuaData.ReadInPlainTerms` | CoppeliaSim/programming/common/luaFunctionData.cpp:31-213 | with the type codes and sizes written out: the first item that does not fit decides between success, with all items before it returned, and the errors for type, table size and buffer size |
| `LuaData.FitsIsMatches` | CoppeliaSim/programming/common/luaFunctionData.cpp:77-91 | the comparison of codes with the flag taken off accepts exactly the twelve kinds of value under their own codes, with the flag or without, and nil where the flag is set |
| `LuaData.TakeString` | CoppeliaSim/programming/common/luaFunctionData.cpp:141-148 | the C string at the cursor, and the position behind its NUL |
| `LuaData.ReturnValues` | CoppeliaSim/programming/common/luaFunctionData.cpp:215-397 | values a Lua function returns are accepted by the caller exactly when they match, and those up to the stop arrive as pushed exactly when none of them holds a NUL |
| `LuaData.PassArguments` | CoppeliaSim/programming/common/luaFunctionData.cpp:31-213 | the same for the arguments of a call: pushed, written by the caller and read by the callback |
| `LuaData.NulIsNotReadBack` | CoppeliaSim/programming/common/luaFunctionData.cpp:573-579 | a string with a NUL is not read back |
| `BlockTree.ParseIsInverse` | CoppeliaSim/programming/b0RemoteApiBindings/generate/pycpp.py:84-113 | the parser takes the lines of every complete template to exactly that template |
| `BlockTree.ParsedIsComplete` | CoppeliaSim/programming/b0RemoteApiBindings/generate/pycpp.py:84-113 | a tree the parser returns is well-formed, every chain of blocks closed, and its preorder walk is the input, line by line |
| `BlockTree.ParseFailsExactly` | CoppeliaSim/programming/b0RemoteApiBindings/generate/pycpp.py:99-113 | the parser fails exactly on lines that are those of no complete template |
| `BlockTree.StepKeepsInv` | CoppeliaSim/programming/b0RemoteApiBindings/generate/pycpp.py:86-111 | after every line the open blocks fit into each other and account for all lines so far, in order |
| `BlockTree.CloseTagHasNoRule` | CoppeliaSim/programming/b0RemoteApiBindings/generate/pycpp.py:14-20 | no close tag is read as the beginning of a block |
| `BlockWords.StepByFirstWord` | CoppeliaSim/programming/b0RemoteApiBindings/generate/pycpp.py:86-111 | what the parser does with a line of Python, for every open block and every first word: close tags, for, while, if, elif and else, each with or without a colon, and any other word |
| `BlockWords.ChainIsParsed` | CoppeliaSim/programming/b0RemoteApiBindings/generate/pycpp.py:84-113 | between any templates, an if with any number of elifs and perhaps an else is parsed into these blocks side by side, each with the blocks of its own lines inside, and the empty block for endif |
| `BlockWords.IfElseIsParsed` | CoppeliaSim/programming/b0RemoteApiBindings/generate/pycpp.py:84-113 | the plain if with else, its lines written out, for every condition and all bodies |
| `BlockWords.LoopIsParsed` | CoppeliaSim/programming/b0RemoteApiBindings/generate/pycpp.py:84-113 | for and while loops likewise, with endfor and endwhile |
| `PyCpp.BuildTree` | CoppeliaSim/programming/b0RemoteApiBindings/generate/pycpp.py:74-113 | the objects on the heap, linked while they are still open, form the tree of the parser, or its error is raised |
| `PyCpp.TakeLine` | CoppeliaSim/programming/b0RemoteApiBindings/generate/pycpp.py:86-111 | one line changes the stack and the innermost list of items as the parser's step does; each open block is the last item of the one around it |
| `PyCpp.ReadLine` | CoppeliaSim/programming/b0RemoteApiBindings/generate/pycpp.py:60-70 | a line of Python is joined with all that continue it, any other line is left alone |
| `PyCpp.ReadingLosesNothing` | CoppeliaSim/programming/b0RemoteApiBindings/generate/pycpp.py:57-70 | the input can be had back from its logical lines, but for a newline after an open continuation at its end |
| `PyCpp.WrittenTemplateIsRead` | CoppeliaSim/programming/b0RemoteApiBindings/generate/pycpp.py:29-70 | a template written from lines of text and Python in any number of continued pieces is read into exactly these: the mark "#py " taken off, pieces joined by newlines, each under the number of the line it begins on |
| `PyCpp.TreeKeepsTemplate` | CoppeliaSim/programming/b0RemoteApiBindings/generate/pycpp.py:74-113 | the input can be had back from the tree, character by character |
| `PyStrings.ReadEscaped` | CoppeliaSim/programming/b0RemoteApiBindings/generate/pycpp.py:115-119 | reading a literal undoes the escaping, exactly for texts without carriage return and NUL |
| `PyStrings.FormatDoubled` | CoppeliaSim/programming/b0RemoteApiBindings/generate/pycpp.py:118-119 | formatting undoes the doubling of braces |
| `PyCode.TextLineMeans` | CoppeliaSim/programming/b0RemoteApiBindings/generate/pycpp.py:124-126 | the code for a line of text reads as a literal that, formatted with the values of its expressions, is the text with these in the places of the backticks |
| `PyCode.LineOfCode` | CoppeliaSim/programming/b0RemoteApiBindings/generate/pycpp.py:125-126 | for a line written from texts and expressions in backticks: the arguments in its code are these expressions, each in parentheses, in their order, and the literal has these texts between its fields |
| `PyCode.ArgumentsAreRead` | CoppeliaSim/programming/b0RemoteApiBindings/generate/pycpp.py:126 | the arguments are read back as the expressions one by one, if each closes the parentheses and quotes it opens |
| `PyCode.TemplateIsFilled` | CoppeliaSim/programming/b0RemoteApiBindings/generate/pycpp.py:121-141 | running the code of a template without lines of Python puts out the template with every expression replaced by its value, line by line, whatever the expressions evaluate to, or fails if one of them does |
| `PyCode.FilledInOrder` | CoppeliaSim/programming/b0RemoteApiBindings/generate/pycpp.py:125-126 | the values stand in the places of their expressions |
| `PyCode.PythonIsKept` | CoppeliaSim/programming/b0RemoteApiBindings/generate/pycpp.py:127-130 | a line of Python is put into the code unchanged, four spaces to the right for each block around it, with its number behind it and the code of its block below |
| `PyCode.DigitsMean` | CoppeliaSim/programming/b0RemoteApiBindings/generate/pycpp.py:123 | the line number in the remark is written in decimal |
| `PyCode.TextIsUnchanged` | CoppeliaSim/programming/b0RemoteApiBindings/generate/pycpp.py:121-141 | the output for a template without Python is the template, exactly when it has no carriage return and no NUL |
| `PyCode.GetPythonCode` | CoppeliaSim/programming/b0RemoteApiBindings/generate/pycpp.py:121-131 | the walk over the objects gives the code of the tree they form |
| `PyCode.Preprocess` | CoppeliaSim/programming/b0RemoteApiBindings/generate/pycpp.py:133-137 | from the input to the output of a template: the error of the parser, or for a template without lines of Python the template with its expressions replaced by their values |
| `PyNesting.IndentationNests` | CoppeliaSim/programming/b0RemoteApiBindings/generate/pycpp.py:121-131 | for templates without continued lines the indentation of the generated code alone, read as Python reads it, gives back the nesting of the tree: under each line exactly the lines of the blocks inside it, in order |
| `Checker.Checker.Check` | checker.py:83-406 | the whole program: a configuration error exactly for a bad plan, a crash exactly for a log that makes an index go out of range, a good verdict exactly for a conforming log, and for every product the mean of its stays, 0 if it never left |
| `Checker.GoodVerdictMeansProduction` | checker.py:312-406 | with one line for a product and no empty evacuation, a good verdict means that it appeared and left as often as planned, each time with exactly the planned tasks, and that each nonzero planned duration of a task is the last one logged for it |
| `Checker.VerdictIsConformity` | checker.py:364-406 | the comparisons of the tables say whether the whole log conforms to the whole plan |
| `CheckerMeaning.ConformityInPlainTerms` | checker.py:237-406 | for every plan with one line for a product and every log, conformity line by line: each product appears and leaves as often as its line asks, each time as a product with the tasks of the line, each nonzero duration is the last one logged, and there is no fault, no appearance that is not planned and no evacuation that is reported |
| `CheckerMeaning.AcceptedInPlainTerms` | checker.py:237-346 | the log is read to its end exactly when on every line the indexes are in the tables, at most five tasks are held, and more of the product have appeared than left |
| `CheckerMeaning.PendingInPlainTerms` | checker.py:282-335 | the tasks held are those of the evacuations since the last product left |
| `CheckerMeaning.PlanInPlainTerms` | checker.py:99-162 | a good plan has products 1 to 6 and at most five tasks 1 to 8, with a duration for each |
| `Checker.ExitHasPartner` | checker.py:303-310 | every exit is matched with an earlier appearance of its product, the one with as many before it as exits before the exit |
| `Checker.PartnersDiffer` | checker.py:303-310 | no appearance is matched with two exits |
| `Checker.MeanStayIsMean` | checker.py:303-346 | what the program keeps and divides is, times the number of exits, the sum over the exits of a product of the time since the partner of the exit appeared |
| `Checker.MeanIsBetween` | checker.py:344-346 | the mean lies between the least and the largest stay |
| `Checker.Checker.StrikeEntry` | checker.py:303-310 | the search ends inside the table exactly when more have appeared than left, and strikes the oldest appearance still inside |
| `Checker.Checker.RecordExit` | checker.py:301-310 | the sums stay those of the exit times less the times of as many appearances, oldest first |
| `Checker.Checker.OnExit` | checker.py:282-335 | one exit line: tasks read, partner found, judged against the plan, and the list of tasks cleared only if a product left |
| `Checker.Checker.OnNewProduct` | checker.py:271-280 | one appearance: counted, listed with its time, reported if it is no product |
| `Checker.Checker.ReadPlan` | checker.py:83-177 | the plan is accepted exactly if every line is good, and then the tables hold counts, task rows and durations of its lines |
| `Checker.Checker.SplitWords` | checker.py:102-116 | the loop with counter and flag finds the words: not empty, free of spaces, together the field without its spaces |
| `Checker.SpacesSeparate` | checker.py:99-119 | any number of spaces between two parts of a field separates their words and changes nothing else |
| `Checker.WordsAreTheField` | checker.py:102-116 | no word is empty or has a space, and the words put together are the field without its spaces |
| `Checker.WordStaysWhole` | checker.py:102-116 | a run without spaces is one word, so that with `SpacesSeparate` there is no other way to split a field |
| `Checker.Checker.CompareTimes` | checker.py:366-392 | the table of marks clears the verdict exactly when a planned nonzero duration of a planned product differs |
| `Checker.Checker.CompareCounts` | checker.py:396-406 | the verdict is cleared exactly when a product appeared, or a planned one left, another number of times than planned |
| `Checker.EmptyEvacuationReported` | checker.py:333-335 | an evacuation without a product is reported exactly when product 6 is not planned |
| `Quaternions.Associative` | CoppeliaSim/programming/simMath/4Vector.h:118-127 | the quaternion product is associative |
| `Quaternions.NormOfProduct` | CoppeliaSim/programming/simMath/4Vector.h:118-127 | the squared norm of a product is the product of the squared norms |
| `Quaternions.ConjugateInverts` | CoppeliaSim/programming/simMath/4Vector.h:78-87 | the conjugate is the inverse exactly of unit quaternions |
| `Quaternions.RotateIsApply` | CoppeliaSim/programming/simMath/4Vector.h:133-138 | rotation, computed with scalar part 1, is the product with the matrix plus the vector times the excess of the squared norm over 1 |
| `Quaternions.UnitRotates` | CoppeliaSim/programming/simMath/4Vector.h:133-171 | rotation and matrix agree on all vectors exactly for unit quaternions |
| `Quaternions.RotateByProduct` | CoppeliaSim/programming/simMath/4Vector.h:118-138 | rotating by a product is rotating by its factors, one after the other |
| `Quaternions.MatrixOfProduct` | CoppeliaSim/programming/simMath/4Vector.h:148-171 | the matrix of a product of unit quaternions is the product of the matrices |
| `Quaternions.MatrixIsOrthogonal` | CoppeliaSim/programming/simMath/4Vector.h:148-171 | the matrix of a unit quaternion times its transpose is the identity, on both sides |
| `RotationMatrices.GetQuaternion` | CoppeliaSim/programming/simMath/3X3Matrix.cpp:85-129 | for every rotation matrix: the divisor is at least 2 in whichever branch is taken, the result is a unit quaternion with this matrix, and every other one is its negative |
| `RotationMatrices.ThereAndBack` | CoppeliaSim/programming/simMath/3X3Matrix.cpp:85-129 | a unit quaternion comes back from its matrix as itself or its negative |
| `RotationMatrices.SameMatrix` | CoppeliaSim/programming/simMath/4Vector.h:148-171 | two unit quaternions with one matrix are equal or opposite |
| `RotationMatrices.MatrixIsRotation` | CoppeliaSim/programming/simMath/4Vector.h:148-171 | the matrix of a unit quaternion is orthogonal with determinant 1 |
| `RotationMatrices.RotationHasPivots` | CoppeliaSim/programming/simMath/3X3Matrix.cpp:85-126 | in every rotation matrix the sums and differences of entries that the branches use multiply like components of one quaternion |
| `RotationMatrices.Normalized` | CoppeliaSim/programming/simMath/4Vector.h:56-63 | normalizing gives the unit quaternion of which the argument is a positive multiple, the multiple being its norm, and changes the argument exactly when it is not unit |
| `RigidTransforms.PosesFormGroup` | CoppeliaSim/programming/simMath/7Vector.cpp:111-148 | with unit quaternions the product is associative, with identity, and with getInverse as inverse on both sides |
| `RigidTransforms.ActOfPoses` | CoppeliaSim/programming/simMath/7Vector.cpp:132-135 | a product transforms vectors as its factors do, one after the other |
| `RigidTransforms.MatrixAgrees` | CoppeliaSim/programming/simMath/7Vector.cpp:85-88 | getMatrix takes product, inverse and action of poses to those of matrices |
| `RigidTransforms.InverseUndoes` | CoppeliaSim/programming/simMath/4X4Matrix.h:51-69 | transposing and turning the position is a right inverse exactly when the rows are orthonormal, a left inverse exactly when the columns are |
| `RigidTransforms.ActOfProduct` | CoppeliaSim/programming/simMath/4X4Matrix.h:141-172 | the matrix product transforms vectors as its factors do, one after the other |
| `RigidTransforms.C4X4Matrix.Inverse` | CoppeliaSim/programming/simMath/4X4Matrix.h:51-69 | three exchanges in place and three sums leave the transpose and the turned position |
| `RigidTransforms.C4X4Matrix.SetMultResult` | CoppeliaSim/programming/simMath/4X4Matrix.h:126-140 | for every aliasing of result and operands: what is left, and that it is the product of the old values exactly when the safety condition holds, which for distinct objects it does |
| `RigidTransforms.C4X4Matrix.TimesAssign` | CoppeliaSim/programming/simMath/4X4Matrix.h:195-199 | the product, also with itself |
| `RigidTransforms.C4X4Matrix.GetTransformation` | CoppeliaSim/programming/simMath/4X4Matrix.cpp:97-100 | the pose returned has a unit quaternion and gives the matrix back |
| `RigidTransforms.C7Vector.SetMultResult` | CoppeliaSim/programming/simMath/7Vector.cpp:111-115 | the product, also when the object is an operand |
| `RigidTransforms.C7Vector.Times` | CoppeliaSim/programming/simMath/7Vector.cpp:117-124 | the position is that of the product, the quaternion the unit one of which that of the product is a positive multiple; the whole is the product exactly when the product of the quaternions is unit |
| `RigidTransforms.C7Vector.TimesAssign` | CoppeliaSim/programming/simMath/7Vector.cpp:126-130 | the product, also with itself |
| `RigidTransforms.OverLeftIsProduct` | CoppeliaSim/programming/simMath/4X4Matrix.h:126-140 | over the left operand the product is formed if and only if the later columns and the position do not see the change of the columns before them |
| `RigidTransforms.OverRightIsProduct` | CoppeliaSim/programming/simMath/4X4Matrix.h:126-140 | over the right operand the product is formed if and only if in every column the rows do not see that x, and then y, have been replaced |
| `RigidTransforms.OverBothIsProduct` | CoppeliaSim/programming/simMath/4X4Matrix.h:126-140 | the square of a matrix is formed over itself if and only if both effects together cancel in every entry |
| `RigidTransforms.ProductComesOut` | CoppeliaSim/programming/simMath/4X4Matrix.h:126-140 | under any aliasing the product is formed if and only if the safety condition for that aliasing holds |
| `RigidTransforms.QuarterTurnIsNotSafe` | CoppeliaSim/programming/simMath/4X4Matrix.h:126-140 | the product of two quarter turns is not formed over the left one, over the right one, or over both |
| `RigidTransforms.ProductThroughMatrices` | CoppeliaSim/programming/simMath/4X4Matrix.h:141-163 | multiplying poses and converting, and converting and multiplying matrices, come to the same, and inverting in place undoes it |

## Left out

- Rounding, infinities and NaN: numbers are reals, so a pivot or a norm that is tiny but not zero counts as nonzero.
- `RotationMatrices.GetQuaternion`: only for rotation matrices; for other matrices the argument of a square root can be negative or the divisor zero.
- `RotationMatrices.Normalized`: not for the zero quaternion, where the source divides by zero.
- `RigidTransforms.C7Vector.Times`: not for a zero quaternion, for the same reason.
- `MMatrix.CMatrix.Inverse`: requires a square matrix; the source reads out of bounds for others.
- Transposition, sums, scalings and conversions of `CMatrix`, `C3X3Matrix` and `C6X6Matrix`: entry by entry, nothing beyond their bodies to state.
- Euler angles, angle and axis, interpolation and random orientations: trigonometric functions.
- The Windows branches of `extApiPlatform.c`, whose mutexes are re-entrant already, and the second lock of the same form, which the same model describes.
- The order in which callers take the two locks: it is decided outside the routines.
- `SharedMemory.EveryRunDelivers`: the other end runs the same loops with the same flag value; opening and mapping the buffer, and memory that becomes visible out of order, are not part of this model.
- The clock of the transfer: a side may give up at any time while it waits; what is sent after that is not followed.
- Sockets themselves: connecting, listening, closing, the three-second clocks (a read may be late at any time), and the truncated start time of `_receiveSimplePacket`.
- `Packets.Connection.SendData`: requires packets of more than 6 bytes, without which the counting loop does not end, and of fewer than 65536, which the type of the field ensures.
- `Packets.Exchange`: both ends on one reliable connection; what a failure loses is said of `SendData` and `ReceiveData` one by one.
- `PyNesting.IndentationNests`: for headers of one line, where those of Python do not begin with a space; a continued line puts several lines into the code for one block.
- `Packets.Connection.ReceiveData`: the return codes are those of the incoming side; `receiveReplyData` has other codes for the same cases.
- Registration of Lua callbacks, release of their buffers, and the table of expected return types that a call carries.
- `LuaData.Write`: integers are unbounded, and characters are bytes.
- `PyStrings.ReadEscaped`: literals are read with the escapes the generator writes; others count as errors.
- `PyCode.Preprocess`: code with lines of Python is generated but not run, so that there is no output for it.
- `PyCode.TemplateIsFilled`: what an expression evaluates to depends on its text alone, not on the expressions evaluated before it; expressions that hold comments or literals in triple quotes are not read.
- `CheckerMeaning.ConformityInPlainTerms`: for plans with one line for a product, as `Checker.GoodVerdictMeansProduction`.
- Including files, parameters and the command line of the preprocessor, and printing its tree.
- `Checker.Checker.Check`: starts from fields already split at colons and converted to numbers; text that `int()` or `float()` refuses ends the program and is not part of this model.
- The messages of the checker: only the verdict, the mean times and whether it stops are kept; the unfinished tasks it prints do not count towards the verdict in the source either.
- `Checker.GoodVerdictMeansProduction`: for one plan line per product; with several lines for one product the later ones overwrite the earlier ones in part, which `Checker.Check` follows exactly.
- Quaternion arithmetic other than product, conjugate and norm; symbol loading, constants, demo clients and thin wrappers.
