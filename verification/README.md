# Proofs about six programs

This project models six programs of the repository in Dafny and proves what they are for. Each program
that changes things in place is modelled by classes, arrays and loops, which are proved to follow
functions on values; the properties are then proved about those functions, for all inputs and over all
runs.

**Calculator** (`CalculatorSpec`, `ExpressionTrees`, `PostfixCode`, `CalculatorMachine`, `PostfixRuns`,
`ShortExpressions`). An infix expression is translated to postfix code by operator priorities and run on
a stack. Numbers and operations are abstract. Translation and execution together are proved correct
against a recursive evaluator on expression trees, which applies the operations of the table to the left
and the right value itself; and any postfix code yields a value exactly when it is the postorder of a
tree that has it. The translation looks only at the associativity of the operator being read, so this
holds if and only if all operators of one priority have the same associativity; a table that breaks this
is shown to regroup. The shipped operators meet the condition.

**Phone books** (`BookSpec`, `BookRuns`, `BookEffects`, `AvlTree`, `AvlNodes`, `IdManager`, `AvlBook`,
`ListBook`, `BookEquivalence`). One book is an AVL tree of heap nodes with duplicate keys, the other a
doubly linked sorted list. Both are proved to implement the same sequence in alphabetical order, stable
among equal last names, with the same identifiers and return codes, over every run. Rotations, insertion
and extraction relink the same nodes. A comment in the AVL book's header gives 44 as a bound on the
height for a billion contacts; the height is in fact at most 42 then, and at most 45 with all 2^32 - 1
identifiers in use, so one byte is enough.

**Shared memory** (`SharedSpec`, `SharedLayout`, `SharedSegment`, `SharedRuns`, `SharedProgress`,
`SharedExecution`). One producer and any number of consumers share a segment in which blocks form a
linked list. The segment is an array of 32-bit words. Each section between locking and unlocking the
semaphore is one step, and steps interleave in any order. No block is taken twice, no process fails, a
consumer stops only when everything is processed and nothing can be added, and from every reachable
state the processes can go on to the producer's exit, after which every array appended has been taken
exactly once.

**Chat with file transfer** (`ChatCodec`, `ChatFraming`, `ChatOutput`, `ChatRelay`, `ChatRelayRuns`,
`ChatConversations`, `ChatArrivals`, `ChatServer`, `ChatFiles`, `ChatFileRuns`, `ChatIncoming`,
`ChatSending`, `ChatDelivery`, `ChatScenarios`, `ChatWire`, `ChatTalk`, `ChatSharing`). Messages are
framed on TCP streams that may be cut anywhere, relayed by a server with 64 places and queued in buffers
of four packets. The codec is a bijection, framing is exact, the server relays orderly conversations and
nothing else, everything an orderly client says is relayed once it has arrived, every recipient gets
whole frames in order or is dropped, the lines typed by one client are the lines said, heard and shown,
and a file sent by one client arrives byte for byte at every client that joined before it was announced
and keeps its connection.

Two things that one might expect do not hold.

- A client that leaves the chat is not always announced. It is if and only if it leaves by an event of
  its own (`ChatConversations.AnnouncedIffOwnDoing`). By an event of others it loses its place exactly
  when the frames relayed do not fit its output buffer (`ChatConversations.OthersFollow`), and then no
  LEAVE is ever relayed for it (`ChatConversations.OverflowIsSilent`). `ChatScenarios.OverflowHappens`
  is a run in which this happens.
- A client that behaves as it should does not always keep its connection while others send files. While
  one client sends a file and there is only talk besides, it does if and only if it joined before the
  file was announced or hears none of its packets (`ChatDelivery.ListenerIsKeptIff`).
  `ChatScenarios.LateListenerIsDropped` is a run in which a client loses its connection because it
  joined between the announcement and the first chunk.

**Raw UDP echo** (`RawUdp`, `UdpWire`, `EchoProtocol`, `EchoServer`, `EchoState`, `EchoLoop`,
`EchoWire`). The checksum of RFC 768, which RFC 1071 describes, building and parsing of datagrams byte
by byte, and a server that numbers each client's requests. A datagram with a checksum is accepted
exactly when it is one that would be built; damage in the payload goes unnoticed exactly when the words
sum to the same modulo 65535, which a single changed byte never does. The linked list of clients refines
a map of counters, and the loop from packets received to packets sent follows it.

**Taxi driver** (`TaxiDriver`). A task timer on a monotonic clock of seconds and nanoseconds. No task is
accepted before the one before it has had the seconds of its timer, and a busy reply gives the seconds
left, rounded up.

`Wrappers` and `Bytes` hold what the others share: optional values, big-endian integers and
NUL-terminated text in fixed-size fields.

Ghost fields and parameters record histories: what was appended and taken, what a connection received
and was sent, which messages were relayed. A place in a C program where a loop calls the operating
system is modelled with a script of outcomes as a parameter. Loops that are long in C are split into
methods, one for each inner loop or branch.

## Model

| member | source | states |
|---|---|---|
| `ExpressionTrees.CompilePrinted` | 02-c-programming/06-03-calculator-plugins/src/calculator.c:235-301 | for every expression tree printed as infix tokens, with any extra parentheses, the translation yields the postorder of the tree, provided one priority level has one associativity |
| `ExpressionTrees.ExecPostorder` | 02-c-programming/06-03-calculator-plugins/src/calculator.c:303-344 | running the postorder code of a tree on any stack pushes the value of the tree, where an operator applies the operation of the table to the value of its left and then of its right operand, or stops with its first error, and leaves the stack below untouched |
| `ExpressionTrees.CalculatePrinted` | 02-c-programming/06-03-calculator-plugins/src/calculator.c:235-344 | compiler correctness: both passes together give that value of the tree, or its first error in left-right-operator order |
| `ExpressionTrees.CalculateInfix` | 02-c-programming/06-03-calculator-plugins/src/calculator.c:235-344 | every infix token sequence with known operators is calculated as its conventional tree, which prints to the same tokens |
| `PostfixRuns.YieldsIffPostorder` | 02-c-programming/06-03-calculator-plugins/src/calculator.c:303-344 | any postfix code yields a value if and only if it is the postorder of a tree that has it |
| `PostfixRuns.FailsIffStops` | 02-c-programming/06-03-calculator-plugins/src/calculator.c:303-344 | and it fails with a status if and only if, after the code of some complete trees, it comes to a token or an end that is at fault in that way |
| `ShortExpressions.TwoNumbers` | 02-c-programming/06-03-calculator-plugins/src/calculator.c:235-344 | a number, an operator and a number: the operation of the table applied to the left and the right one, or the division by zero |
| `ShortExpressions.ThreeNumbers` | 02-c-programming/06-03-calculator-plugins/src/calculator.c:250-269 | three numbers and two operators, with any priorities and associativities: which two belong together, and what comes out |
| `ShortExpressions.ShippedLines` | 02-c-programming/02-02-calculator/src/calculator.c:9-56 | with the shipped operators x - y - z is (x - y) - z, x ^ y ^ z is x ^ (y ^ z), and * comes before + on either side |
| `ExpressionTrees.RegroupIsConventional` | 02-c-programming/06-03-calculator-plugins/src/calculator.c:256-261 | every infix token sequence has such a tree: regrouping by priority and associativity changes no token |
| `ExpressionTrees.MixedAssociativityRegroups` | 02-c-programming/06-03-calculator-plugins/src/calculator.c:256-261 | the pop rule looks only at the operator being read, so a right- and a left-associative operator of one priority are grouped against convention |
| `ExpressionTrees.FaithfulIffUniform` | 02-c-programming/06-03-calculator-plugins/src/calculator.c:256-261 | the translation respects all conventional trees if and only if each priority level has one associativity |
| `CalculatorMachine.ShippedTableIsUniform` | 02-c-programming/02-02-calculator/src/calculator.c:26-56 | the built-in operators meet that condition |
| `PostfixCode.CompileOnAnyTokens` | 02-c-programming/02-02-calculator/src/calculator.c:157-219 | on any tokens at all, translation succeeds exactly when the parentheses balance; the output is a rearrangement of the other tokens that keeps the operands in order |
| `CalculatorMachine.TokenArray.Append` | 02-c-programming/06-03-calculator-plugins/src/calculator.c:159-164 | appending fails exactly when the array holds 100 tokens, and otherwise adds one at the end |
| `CalculatorMachine.Calculator.GetOperation` | 02-c-programming/06-03-calculator-plugins/src/calculator.c:11-19 | the search loop finds the first operation with the symbol, or none when no operation has it |
| `CalculatorMachine.Calculator.EmitOperators` | 02-c-programming/06-03-calculator-plugins/src/calculator.c:250-269 | the inner loop moves exactly the operators that go first from the stack to the output |
| `CalculatorMachine.Calculator.ToPostfix` | 02-c-programming/06-03-calculator-plugins/src/calculator.c:235-301 | the array-and-stack loop computes the translation and never runs out of room, whatever the tokens |
| `CalculatorMachine.Calculator.CalculatePostfix` | 02-c-programming/06-03-calculator-plugins/src/calculator.c:303-344 | the stack machine sets ans and has_result on success and leaves both alone on any error |
| `CalculatorMachine.Calculator.CalculateExpression` | 02-c-programming/06-03-calculator-plugins/src/calculator.c:346-358 | the two passes in sequence, for input already split into tokens |
| `BookSpec.InsertSortedIsSplice` | 02-c-programming/04-01-doubly-linked-phone-book/src/phone_book.c:113-152 | insertion goes before the first contact whose last name is greater, so equal names keep their order of arrival |
| `BookSpec.InsertKeepsSorted` | 02-c-programming/04-01-doubly-linked-phone-book/src/phone_book.c:113-152 | insertion keeps the book sorted |
| `BookSpec.GreaterIffComesAfter` | 02-c-programming/04-01-doubly-linked-phone-book/src/phone_book.c:126-130 | the comparison is the alphabetical one: the first differing character decides, and a beginning comes first |
| `BookSpec.InsertedAlphabetically` | 02-c-programming/04-01-doubly-linked-phone-book/src/phone_book.c:113-152 | in those terms, a new contact goes behind all that do not come after it |
| `BookSpec.InsertKeepsAlphabetical` | 02-c-programming/04-01-doubly-linked-phone-book/src/phone_book.c:113-152 | and an alphabetical book stays alphabetical |
| `BookEffects.AcceptedIff` | 02-c-programming/04-03-avl-tree-phone-book/src/phone_book.c:228-318 | the return codes: when exactly each operation is accepted |
| `BookEffects.CreateAdds` | 02-c-programming/04-03-avl-tree-phone-book/src/phone_book.c:198-266 | an accepted creation adds one contact, its names cut to 99 bytes, at its alphabetical place, under the identifier given back last or else the least never used |
| `BookEffects.RemoveTakesOut` | 02-c-programming/04-03-avl-tree-phone-book/src/phone_book.c:435-446 | an accepted removal takes out the contact with the identifier and no other |
| `BookEffects.EditMoves` | 02-c-programming/04-03-avl-tree-phone-book/src/phone_book.c:299-318 | an accepted renaming changes the last name of that contact alone and moves it to its alphabetical place |
| `BookEffects.RemovedIsReused` | 02-c-programming/04-03-avl-tree-phone-book/src/phone_book.c:198-226 | the identifier removed last is the next given out |
| `BookRuns.ApplyKeepsInvariant` | 02-c-programming/04-03-avl-tree-phone-book/src/phone_book.c:191-266 | create, remove, edit and full clear keep the order and the exact account of identifiers |
| `BookRuns.ExactAccount` | 02-c-programming/04-03-avl-tree-phone-book/src/phone_book.c:198-226 | live and free identifiers are distinct, disjoint, not zero, and together exactly those issued since the last clear |
| `BookRuns.CreateRefusedWhenFull` | 02-c-programming/04-03-avl-tree-phone-book/src/phone_book.c:198-214 | creating with both names and a phone number that fits, or none, fails exactly when all 2^32 - 1 identifiers are live, also after next_id has wrapped to 0 |
| `BookRuns.ReachableBooks` | 02-c-programming/04-03-avl-tree-phone-book/src/phone_book.c:191-266 | in every reachable state the last names are in alphabetical order and the account of identifiers holds |
| `AvlTree.BalanceIsAvl` | 02-c-programming/04-03-avl-tree-phone-book/src/phone_book.c:37-70 | rebalancing a node whose subtrees differ by at most two gives an AVL tree with exact heights |
| `AvlTree.BalanceInorder` | 02-c-programming/04-03-avl-tree-phone-book/src/phone_book.c:37-70 | rotations keep the in-order sequence of nodes |
| `AvlTree.InsertIsAvl` | 02-c-programming/04-03-avl-tree-phone-book/src/phone_book.c:168-189 | insertion keeps every stored height exact and every balance factor in -1..1, and raises the height by at most one |
| `AvlTree.InsertInorder` | 02-c-programming/04-03-avl-tree-phone-book/src/phone_book.c:168-189 | insertion splices the one new node into the in-order sequence of nodes |
| `AvlTree.InsertContacts` | 02-c-programming/04-03-avl-tree-phone-book/src/phone_book.c:168-189 | the place is that of stable sorted insertion, also among equal last names |
| `AvlTree.RemoveMinInorder` | 02-c-programming/04-03-avl-tree-phone-book/src/phone_book.c:401-406 | removing the leftmost node drops exactly the first of the in-order sequence |
| `AvlTree.ExtractIsAvl` | 02-c-programming/04-03-avl-tree-phone-book/src/phone_book.c:408-433 | extraction keeps heights exact and the tree balanced |
| `AvlTree.ExtractInorder` | 02-c-programming/04-03-avl-tree-phone-book/src/phone_book.c:408-433 | extraction drops exactly the node with the identifier from the in-order sequence and touches no other |
| `AvlTree.SizeAtLeastFib` | 02-c-programming/04-03-avl-tree-phone-book/src/phone_book.c:31-70 | a tree of height h holds at least Fib(h + 2) - 1 contacts |
| `AvlTree.HeightFitsByte` | 02-c-programming/04-03-avl-tree-phone-book/src/phone_book.c:31-35 | with at most 2^32 - 1 contacts the height is at most 45, with a billion at most 42, so the 8-bit height never overflows |
| `AvlTree.SparsestAttainsFib` | 02-c-programming/04-03-avl-tree-phone-book/src/phone_book.c:31-70 | the bound on the size is attained at every height |
| `AvlNodes.FixHeight` | 02-c-programming/04-03-avl-tree-phone-book/src/phone_book.c:31-35 | the height stored in one byte is the exact height |
| `AvlNodes.RotateNodeRight` | 02-c-programming/04-03-avl-tree-phone-book/src/phone_book.c:37-45 | the right rotation relinks the heap nodes to the rotated tree |
| `AvlNodes.RotateNodeLeft` | 02-c-programming/04-03-avl-tree-phone-book/src/phone_book.c:47-55 | the left rotation relinks the heap nodes to the rotated tree |
| `AvlNodes.BalanceNode` | 02-c-programming/04-03-avl-tree-phone-book/src/phone_book.c:57-70 | rebalancing relinks the same heap nodes, none lost and none shared |
| `AvlNodes.AddNode` | 02-c-programming/04-03-avl-tree-phone-book/src/phone_book.c:168-189 | the recursion that rewrites left, right and height in place builds the inserted tree from the old nodes and the new one |
| `AvlNodes.FindMinNode` | 02-c-programming/04-03-avl-tree-phone-book/src/phone_book.c:397-399 | the walk to the left ends at the least node |
| `AvlNodes.RemoveMinNode` | 02-c-programming/04-03-avl-tree-phone-book/src/phone_book.c:401-406 | the least node is unlinked in place |
| `AvlNodes.ExtractNode` | 02-c-programming/04-03-avl-tree-phone-book/src/phone_book.c:408-433 | the node with the identifier is unlinked, reset, and replaced by its in-order successor, relinked in place |
| `AvlNodes.FindNode` | 02-c-programming/04-03-avl-tree-phone-book/src/phone_book.c:268-286 | the search through the whole tree finds a node exactly when the identifier is there |
| `IdManager.IdManager.TakeId` | 02-c-programming/04-03-avl-tree-phone-book/src/phone_book.c:198-214 | an identifier comes from the top of the free stack or else from the counter, which wraps to 0 and then gives out no more |
| `IdManager.IdManager.ReleaseId` | 02-c-programming/04-03-avl-tree-phone-book/src/phone_book.c:216-226 | a released identifier goes on top of the free stack |
| `AvlBook.PhoneBook.Create` | 02-c-programming/04-03-avl-tree-phone-book/src/phone_book.c:228-266 | creating inserts one contact with a taken identifier and truncated names; with a name missing, a phone number too long or no identifier left it returns -1 and changes nothing |
| `AvlBook.PhoneBook.Remove` | 02-c-programming/04-03-avl-tree-phone-book/src/phone_book.c:435-446 | removing returns -1 for 0 or an unknown identifier, and otherwise drops the node and releases its identifier |
| `AvlBook.PhoneBook.EditLastName` | 02-c-programming/04-03-avl-tree-phone-book/src/phone_book.c:299-318 | renaming takes the same node out and puts it back in its new place: the set of nodes is the same |
| `AvlBook.PhoneBook.Clear` | 02-c-programming/04-03-avl-tree-phone-book/src/phone_book.c:380-395 | clearing book and identifiers together empties both |
| `AvlBook.BookTreeIsLow` | 02-c-programming/04-03-avl-tree-phone-book/src/phone_book.c:31-35 | every tree whose identifiers are in order has height at most 45 |
| `ListBook.PhoneBook.Add` | 02-c-programming/04-01-doubly-linked-phone-book/src/phone_book.c:113-152 | the relinking at the front, in the middle or at the end inserts at the place of stable sorted insertion, with previous links mirroring next links |
| `ListBook.PhoneBook.Detach` | 02-c-programming/04-01-doubly-linked-phone-book/src/phone_book.c:154-168 | unlinking leaves the other nodes chained in both directions |
| `ListBook.PhoneBook.Find` | 02-c-programming/04-01-doubly-linked-phone-book/src/phone_book.c:250-256 | the walk finds the first node with the identifier |
| `ListBook.PhoneBook.Create` | 02-c-programming/04-01-doubly-linked-phone-book/src/phone_book.c:207-248 | the same book operation as above on the doubly linked list; it also hands out the identifier taken |
| `ListBook.PhoneBook.Remove` | 02-c-programming/04-01-doubly-linked-phone-book/src/phone_book.c:356-374 | the same book operation on the list, which has no test for 0 but never holds it |
| `ListBook.PhoneBook.EditLastName` | 02-c-programming/04-01-doubly-linked-phone-book/src/phone_book.c:269-282 | the node is detached, renamed and added again |
| `ListBook.PhoneBook.Clear` | 02-c-programming/04-01-doubly-linked-phone-book/src/phone_book.c:336-354 | clearing list and identifiers together empties both |
| `BookEquivalence.PerformOnBoth` | 02-c-programming/04-01-doubly-linked-phone-book/src/phone_book.c:113-168 | one operation on both books returns the same code and leaves the same contacts, order and identifiers |
| `BookEquivalence.RunFromEmpty` | 02-c-programming/04-03-avl-tree-phone-book/src/phone_book.c:168-446 | over every run the AVL book in order equals the linked list, with the same return codes and identifiers in reserve, and the contacts are in alphabetical order |
| `SharedSpec.MaxFitIsMaxFitting` | 03-ipc-and-network-programming/04-system-v-shared-memory/src/producer.c:63-83 | there is exactly one largest count that fits |
| `SharedSegment.Segment.MaxFittingCount` | 03-ipc-and-network-programming/04-system-v-shared-memory/src/producer.c:63-83 | the binary search returns the largest count up to the configured maximum whose aligned block fits the free space, 0 if none, without 32-bit overflow |
| `SharedSegment.Segment.constructor` | 03-ipc-and-network-programming/04-system-v-shared-memory/src/ipc.c:210-241 | a fresh header describes an empty segment and passes its own check |
| `SharedSegment.Segment.HeaderPassesCheck` | 03-ipc-and-network-programming/04-system-v-shared-memory/src/ipc.c:38-63 | the header of every reachable segment passes shared_header_is_valid |
| `SharedSegment.Segment.BlockPassesCheck` | 03-ipc-and-network-programming/04-system-v-shared-memory/src/ipc.c:65-93 | every published block passes shared_block_is_valid |
| `SharedSegment.Segment.HeaderCheckIs` | 03-ipc-and-network-programming/04-system-v-shared-memory/src/ipc.c:38-63 | which headers pass the check, in numbers of bytes |
| `SharedSegment.Segment.BlockCheckIs` | 03-ipc-and-network-programming/04-system-v-shared-memory/src/ipc.c:65-93 | which blocks pass the check, in terms of the words they stand in |
| `SharedLayout.BlockMarked` | 03-ipc-and-network-programming/04-system-v-shared-memory/src/consumer.c:62-75 | rewriting state and count of one block changes no other block in the linked layout |
| `SharedLayout.BlockAppended` | 03-ipc-and-network-programming/04-system-v-shared-memory/src/producer.c:102-137 | writing a block at the end and linking the last one to it extends the layout by exactly that block |
| `SharedLayout.MemoryMap` | 03-ipc-and-network-programming/04-system-v-shared-memory/src/ipc.c:15-36 | where every block stands: at byte 56, and each next one at the next multiple of 8, with its five header fields and its values behind them |
| `SharedSegment.Segment.Register` | 03-ipc-and-network-programming/04-system-v-shared-memory/src/consumer.c:110-119 | registering counts one more active consumer, unless the counter is at its maximum |
| `SharedSegment.Segment.Deregister` | 03-ipc-and-network-programming/04-system-v-shared-memory/src/consumer.c:131-138 | leaving counts one fewer |
| `SharedSegment.Segment.TakeBlock` | 03-ipc-and-network-programming/04-system-v-shared-memory/src/consumer.c:26-60 | the walk claims the first ready block and copies out its values; it never ends in an error on a valid segment |
| `SharedSegment.Segment.FinishBlock` | 03-ipc-and-network-programming/04-system-v-shared-memory/src/consumer.c:62-75 | finishing succeeds exactly on a block in progress and then counts it as processed |
| `SharedSegment.FindMinMax` | 03-ipc-and-network-programming/04-system-v-shared-memory/src/consumer.c:77-88 | the smallest and the largest of the values |
| `SharedSegment.Segment.CheckSpace` | 03-ipc-and-network-programming/04-system-v-shared-memory/src/producer.c:179-193 | the producer learns how much fits, or marks production as done |
| `SharedSegment.Segment.FindLastBlock` | 03-ipc-and-network-programming/04-system-v-shared-memory/src/producer.c:85-100 | the walk ends at the last block |
| `SharedSegment.Segment.AppendBlock` | 03-ipc-and-network-programming/04-system-v-shared-memory/src/producer.c:102-137 | appending adds one ready block with the values, or reports no space or an error and changes nothing |
| `SharedSegment.Segment.ProcessingFinished` | 03-ipc-and-network-programming/04-system-v-shared-memory/src/producer.c:214-226 | the producer's last loop reads three header fields, and finds it may leave exactly when every block has been processed and nobody is registered |
| `SharedRuns.NextKeepsInv` | 03-ipc-and-network-programming/04-system-v-shared-memory/src/consumer.c:104-174 | each critical section of the producer and of any consumer keeps the protocol invariant |
| `SharedRuns.EveryRun` | 03-ipc-and-network-programming/04-system-v-shared-memory/src/consumer.c:121-174 | in every interleaving nobody fails, each block is taken at most once and with the values appended, a block is ready until it is taken, and active_consumers counts the registered ones |
| `SharedRuns.FinishKeepsInv` | 03-ipc-and-network-programming/04-system-v-shared-memory/src/consumer.c:164-171 | the taker's finish never fails |
| `SharedRuns.AppendKeepsInv` | 03-ipc-and-network-programming/04-system-v-shared-memory/src/producer.c:174-212 | with one producer the append after the size check never runs out of space |
| `SharedRuns.FinishedIsFinal` | 03-ipc-and-network-programming/04-system-v-shared-memory/src/consumer.c:131-154 | a consumer is told to finish only when every block is processed, and from then on no run appends, takes or changes a block |
| `SharedRuns.NoDataMeansPending` | 03-ipc-and-network-programming/04-system-v-shared-memory/src/consumer.c:56-59 | a consumer that finds nothing waits for the producer or for a block in progress |
| `SharedRuns.ExitMeansNothingPending` | 03-ipc-and-network-programming/04-system-v-shared-memory/src/producer.c:214-226 | a producer that has left has left all blocks processed and no consumer registered |
| `SharedRuns.AppendsAreBounded` | 03-ipc-and-network-programming/04-system-v-shared-memory/src/producer.c:174-212 | each append takes at least a block struct of a finite segment, so generation ends |
| `SharedProgress.ExitIsTheEnd` | 03-ipc-and-network-programming/04-system-v-shared-memory/src/producer.c:214-238 | in every run in which the producer has left, each array appended was taken by exactly one consumer, with its values, and processed, nobody is registered, and no continuation changes anything |
| `SharedProgress.CanAlwaysFinish` | 03-ipc-and-network-programming/04-system-v-shared-memory/src/producer.c:174-226 | no reachable state is a dead end: from every one of them some continuation stops production, has every block processed, lets every consumer leave and brings the producer to its exit |
| `SharedProgress.CheckDecides` | 03-ipc-and-network-programming/04-system-v-shared-memory/src/producer.c:174-199 | the producer stops exactly when the shortest array no longer fits, and otherwise holds the array drawn |
| `SharedProgress.DrawnIsAppended` | 03-ipc-and-network-programming/04-system-v-shared-memory/src/producer.c:174-212 | whatever the consumers do meanwhile, the array drawn, and no other, is what is appended |
| `SharedProgress.TakeDecides` | 03-ipc-and-network-programming/04-system-v-shared-memory/src/consumer.c:26-60 | a consumer takes the first ready block with its values; with none ready it leaves if production is done and all is processed, and waits otherwise |
| `SharedProgress.RegisterDecides` | 03-ipc-and-network-programming/04-system-v-shared-memory/src/consumer.c:104-119 | a consumer is registered if and only if the segment is still there and the 32-bit counter has room |
| `SharedProgress.PollDecides` | 03-ipc-and-network-programming/04-system-v-shared-memory/src/producer.c:214-226 | the producer leaves exactly when all blocks are processed and nobody is registered |
| `SharedExecution.Perform` | 03-ipc-and-network-programming/04-system-v-shared-memory/src/consumer.c:121-174 | each critical section on the real segment, the producer's last poll among them, does what the state machine says |
| `SharedExecution.PerformPoll` | 03-ipc-and-network-programming/04-system-v-shared-memory/src/producer.c:214-226 | whether the producer leaves is decided by the header fields of the segment, and is what the state machine decides from the list of blocks |
| `SharedExecution.Execute` | 03-ipc-and-network-programming/04-system-v-shared-memory/src/producer.c:139-228 | so does every run on a fresh segment |
| `ChatCodec.FrameIsComplete` | 03-ipc-and-network-programming/07-tcp-chat-and-file-transfer/src/protocol.c:83-95 | what encoding writes is one complete frame of exactly its length |
| `ChatCodec.DecodeEncode` | 03-ipc-and-network-programming/07-tcp-chat-and-file-transfer/src/protocol.c:121-196 | decoding an encoded message gives it back with the fields its type does not carry zeroed |
| `ChatCodec.EncodeDecode` | 03-ipc-and-network-programming/07-tcp-chat-and-file-transfer/src/protocol.c:121-196 | encoding what any accepted frame decodes to reproduces it byte for byte |
| `ChatCodec.CodecIsBijection` | 03-ipc-and-network-programming/07-tcp-chat-and-file-transfer/src/protocol.c:52-196 | two messages have the same frame if and only if they have the same canonical form |
| `ChatWire.FrameStatusIs` | 03-ipc-and-network-programming/07-tcp-chat-and-file-transfer/src/protocol.c:61-95 | whether bytes begin a frame, a part of one or neither, in terms of the bytes of the header |
| `ChatWire.FrameLayout` | 03-ipc-and-network-programming/07-tcp-chat-and-file-transfer/src/protocol.c:121-160 | where every field of a message stands in its frame, most significant byte first |
| `ChatWire.FrameIffLaidOut` | 03-ipc-and-network-programming/07-tcp-chat-and-file-transfer/src/protocol.c:97-160 | a message can be encoded if and only if some bytes are laid out as it says, and then those are its frame |
| `ChatWire.DecodedLayout` | 03-ipc-and-network-programming/07-tcp-chat-and-file-transfer/src/protocol.c:162-196 | what is decoded stands in the bytes it was decoded from |
| `ChatWire.DecodedIff` | 03-ipc-and-network-programming/07-tcp-chat-and-file-transfer/src/protocol.c:162-196 | which bytes exactly are decoded |
| `ChatOutput.EncodeInto` | 03-ipc-and-network-programming/07-tcp-chat-and-file-transfer/src/protocol.c:121-160 | encoding in place writes the whole frame and nothing beyond it, or nothing |
| `ChatFraming.StatusOfPrefix` | 03-ipc-and-network-programming/07-tcp-chat-and-file-transfer/src/protocol.c:83-95 | more bytes never change a decision once made, and an incomplete frame is shorter than the buffer |
| `ChatFraming.RestFitsBuffer` | 03-ipc-and-network-programming/07-tcp-chat-and-file-transfer/src/client.c:235-241 | what is left waiting is always shorter than the input buffer, so the "buffer full" check never fires |
| `ChatFraming.CutsDoNotMatter` | 03-ipc-and-network-programming/07-tcp-chat-and-file-transfer/src/client.c:219-251 | for every byte stream, valid or not, the outcome depends on the bytes and not on how they were cut |
| `ChatFraming.FramingIsExact` | 03-ipc-and-network-programming/07-tcp-chat-and-file-transfer/src/client.c:219-251 | however the frames of a list of messages are cut, exactly those messages are handled in order with nothing left over |
| `ChatFraming.FrameReader.ProcessInput` | 03-ipc-and-network-programming/07-tcp-chat-and-file-transfer/src/client.c:219-233 | the loop on the input buffer handles every complete frame and shifts the rest to the front |
| `ChatFraming.FrameReader.Receive` | 03-ipc-and-network-programming/07-tcp-chat-and-file-transfer/src/client.c:235-251 | one receive into the room left |
| `ChatOutput.OutputQueue.Queue` | 03-ipc-and-network-programming/07-tcp-chat-and-file-transfer/src/server.c:72-84 | after compaction a frame goes in whole or, when it does not fit, not at all; bytes sent followed by bytes pending stay the frames queued |
| `ChatOutput.OutputQueue.Flush` | 03-ipc-and-network-programming/07-tcp-chat-and-file-transfer/src/server.c:208-224 | the sending loop moves bytes from pending to sent, in order, until the socket blocks, fails or everything is gone |
| `ChatOutput.OutputQueue.Drain` | 03-ipc-and-network-programming/07-tcp-chat-and-file-transfer/src/client.c:379-387 | the loop at the end of a client moves bytes from pending to sent, in order, until none are left, sending fails or the socket stays full for a second |
| `ChatOutput.FlushingMeans` | 03-ipc-and-network-programming/07-tcp-chat-and-file-transfer/src/client.c:100-111 | how much the sending loop hands over: what the calls up to the first that blocks, fails or sends nothing could take, or all there was |
| `ChatOutput.DrainingMeans` | 03-ipc-and-network-programming/07-tcp-chat-and-file-transfer/src/client.c:379-387 | the draining loop is one run of the sending loop in which no call would block |
| `ChatRelayRuns.HandleKeeps` | 03-ipc-and-network-programming/07-tcp-chat-and-file-transfer/src/server.c:143-169 | handling a message keeps the table consistent, relays it exactly when it is accepted, and leaves everybody else alone |
| `ChatRelayRuns.DisconnectKeeps` | 03-ipc-and-network-programming/07-tcp-chat-and-file-transfer/src/server.c:93-111 | so does dropping a client |
| `ChatRelayRuns.LeaveIsSound` | 03-ipc-and-network-programming/07-tcp-chat-and-file-transfer/src/server.c:93-106 | the LEAVE made up for a joined client can always be encoded |
| `ChatRelayRuns.StepKeepsInv` | 03-ipc-and-network-programming/07-tcp-chat-and-file-transfer/src/server.c:323-343 | so does every event of the main loop |
| `ChatRelayRuns.EveryRun` | 03-ipc-and-network-programming/07-tcp-chat-and-file-transfer/src/server.c:313-344 | the invariant holds in every run from an empty table |
| `ChatConversations.AcceptedIffConversation` | 03-ipc-and-network-programming/07-tcp-chat-and-file-transfer/src/server.c:117-169 | the checks on a joining, talking, sharing and leaving client accept a list of messages one after the other if and only if it starts with JOIN and has no other, keeps one id and name, has nothing after a LEAVE, and every chunk and end belongs to an open transfer whose chunks sum to at most, and at the end exactly, the declared size |
| `ChatConversations.RelaysIffOrderly` | 03-ipc-and-network-programming/07-tcp-chat-and-file-transfer/src/server.c:143-169 | the table relays a message if and only if what was relayed for its sender so far, followed by it, is such a conversation; otherwise nothing changes; the sender stays unless it is refused or leaves |
| `ChatConversations.EveryConversation` | 03-ipc-and-network-programming/07-tcp-chat-and-file-transfer/src/server.c:86-169 | in every run the messages relayed for any connection are such a conversation |
| `ChatConversations.EveryClient` | 03-ipc-and-network-programming/07-tcp-chat-and-file-transfer/src/server.c:72-91 | in every run the bytes sent to and pending for a client are the whole frames of everybody else since it joined, and the bytes it sent are the frames relayed for it followed by an incomplete one |
| `ChatConversations.EndsWithLeave` | 03-ipc-and-network-programming/07-tcp-chat-and-file-transfer/src/server.c:323-343 | when a joined client's connection is ended by an event of its own - LEAVE, a refused frame, a failed send, a hang-up - one LEAVE is relayed for it, and last |
| `ChatConversations.DisconnectAnnounces` | 03-ipc-and-network-programming/07-tcp-chat-and-file-transfer/src/server.c:93-111 | dropping a joined client, also in the middle of its input, adds exactly the LEAVE in its name to what was relayed for it |
| `ChatConversations.OverIsForGood` | 03-ipc-and-network-programming/07-tcp-chat-and-file-transfer/src/server.c:62-70 | once a connection is out of the table nothing is relayed in its name again |
| `ChatConversations.AnnouncedIffOwnDoing` | 03-ipc-and-network-programming/07-tcp-chat-and-file-transfer/src/server.c:86-111 | a joined client that an event puts out of the table has a LEAVE relayed, and last, if and only if the event was its own |
| `ChatConversations.OverflowIsSilent` | 03-ipc-and-network-programming/07-tcp-chat-and-file-transfer/src/server.c:86-91 | a client that another's event puts out of the table is never announced: no LEAVE is relayed for it then or in any continuation of the run |
| `ChatConversations.OthersFollow` | 03-ipc-and-network-programming/07-tcp-chat-and-file-transfer/src/server.c:72-91 | exactly when that happens: by an event of others a joined client is given all the frames relayed in it if together with what is pending they fit the output buffer, and loses its place otherwise |
| `ChatConversations.ConnectTakesAPlace` | 03-ipc-and-network-programming/07-tcp-chat-and-file-transfer/src/server.c:226-262 | a new connection takes the first free of 64 places, not joined and with empty buffers; with none free nothing changes |
| `ChatConversations.StaysIffAccepted` | 03-ipc-and-network-programming/07-tcp-chat-and-file-transfer/src/server.c:171-206 | a client keeps its place through its own bytes exactly as long as each frame in them is accepted and is no LEAVE |
| `ChatConversations.WritableMeans` | 03-ipc-and-network-programming/07-tcp-chat-and-file-transfer/src/server.c:208-224 | when the socket takes bytes, they leave the buffer in order, and the client stays unless sending fails |
| `ChatConversations.HangUpMeans` | 03-ipc-and-network-programming/07-tcp-chat-and-file-transfer/src/server.c:323-343 | a client that hangs up loses its place |
| `ChatScenarios.OverflowHappens` | 03-ipc-and-network-programming/07-tcp-chat-and-file-transfer/src/server.c:86-91 | a run from the empty table in which it does happen |
| `ChatArrivals.ProcessOrderly` | 03-ipc-and-network-programming/07-tcp-chat-and-file-transfer/src/server.c:171-187 | working through frames that continue a client's conversation relays them all and keeps the client, unless the last one is its LEAVE |
| `ChatArrivals.NeverRefused` | 03-ipc-and-network-programming/07-tcp-chat-and-file-transfer/src/server.c:189-206 | whatever piece of an orderly client's stream arrives, everything that is whole by then has been relayed, and the client is still in the table unless it has said its LEAVE |
| `ChatArrivals.SpokenIsRelayed` | 03-ipc-and-network-programming/07-tcp-chat-and-file-transfer/src/server.c:171-206 | in every run, of the bytes that have arrived from an orderly client exactly the whole messages have been relayed, and after them at most a LEAVE made up for it |
| `ChatArrivals.AllIsRelayed` | 03-ipc-and-network-programming/07-tcp-chat-and-file-transfer/src/server.c:171-206 | once all its bytes have arrived, all it said has been relayed |
| `ChatServer.ServerClient.Deliver` | 03-ipc-and-network-programming/07-tcp-chat-and-file-transfer/src/server.c:72-91 | queueing on a client's own buffer, or closing it when the frame does not fit |
| `ChatServer.ServerClient.ValidateFileTransfer` | 03-ipc-and-network-programming/07-tcp-chat-and-file-transfer/src/server.c:117-141 | the transfer fields change only for a message that is accepted |
| `ChatServer.Server.BroadcastFrame` | 03-ipc-and-network-programming/07-tcp-chat-and-file-transfer/src/server.c:86-91 | the loop over 64 records delivers to every other joined client |
| `ChatServer.Server.AnnounceLeave` | 03-ipc-and-network-programming/07-tcp-chat-and-file-transfer/src/server.c:93-106 | the made-up LEAVE goes to everybody else |
| `ChatServer.Server.DisconnectClient` | 03-ipc-and-network-programming/07-tcp-chat-and-file-transfer/src/server.c:108-111 | announcing and closing |
| `ChatServer.Server.HandleMessage` | 03-ipc-and-network-programming/07-tcp-chat-and-file-transfer/src/server.c:143-169 | decoding, joining, checking, relaying and leaving, in place, do what the state machine says |
| `ChatServer.Server.ProcessInput` | 03-ipc-and-network-programming/07-tcp-chat-and-file-transfer/src/server.c:171-187 | the loop on a client's own buffer handles every complete frame |
| `ChatServer.Server.ReceiveClientData` | 03-ipc-and-network-programming/07-tcp-chat-and-file-transfer/src/server.c:189-206 | receiving again and again, in pieces of any size that fit the room left, amounts to processing all bytes at once |
| `ChatServer.Server.FlushClientOutput` | 03-ipc-and-network-programming/07-tcp-chat-and-file-transfer/src/server.c:208-224 | flushing one client's buffer |
| `ChatServer.Server.FindFreeClient` | 03-ipc-and-network-programming/07-tcp-chat-and-file-transfer/src/server.c:226-231 | the first free record, or 64 |
| `ChatServer.Server.AcceptClient` | 03-ipc-and-network-programming/07-tcp-chat-and-file-transfer/src/server.c:233-262 | a new connection takes the first free record, or is closed when there is none |
| `ChatServer.Server.Perform` | 03-ipc-and-network-programming/07-tcp-chat-and-file-transfer/src/server.c:323-343 | one event on the real table is one step of the state machine |
| `ChatServer.Execute` | 03-ipc-and-network-programming/07-tcp-chat-and-file-transfer/src/server.c:313-344 | a whole run of the real table is a run of the state machine |
| `ChatFiles.PrefixIsInjective` | 03-ipc-and-network-programming/07-tcp-chat-and-file-transfer/src/client.c:160-164 | files of different transfers never share a path |
| `ChatFiles.PathStaysInside` | 03-ipc-and-network-programming/07-tcp-chat-and-file-transfer/src/client.c:118-121 | under any accepted name the file lands in the download directory itself, and the path is never cut |
| `ChatFiles.PathFormat` | 03-ipc-and-network-programming/07-tcp-chat-and-file-transfer/src/client.c:160-164 | the path is downloads/, the two identifiers as numerals of 16 lower-case hexadecimal digits, and the name |
| `ChatFileRuns.PacketArrives` | 03-ipc-and-network-programming/07-tcp-chat-and-file-transfer/src/client.c:151-203 | the next packet of a file is refused only if it is the first and no place is free, and otherwise leaves exactly the bytes so far on disk |
| `ChatFileRuns.PacketAcceptedIff` | 03-ipc-and-network-programming/07-tcp-chat-and-file-transfer/src/client.c:151-203 | when exactly a receiver keeps its connection over a file packet, whatever it holds |
| `ChatFileRuns.PacketsShown` | 03-ipc-and-network-programming/07-tcp-chat-and-file-transfer/src/client.c:151-203 | what is shown of it: the name and size announced and, in the end, the path |
| `ChatFileRuns.OtherKeeps` | 03-ipc-and-network-programming/07-tcp-chat-and-file-transfer/src/client.c:144-217 | whatever else is handled, the files of other transfers stay as they are |
| `ChatFileRuns.CancelLeavesNothing` | 03-ipc-and-network-programming/07-tcp-chat-and-file-transfer/src/client.c:144-149 | what a departing sender had not finished is gone from the table and the disk, and nothing else is |
| `ChatFileRuns.FollowFile` | 03-ipc-and-network-programming/07-tcp-chat-and-file-transfer/src/client.c:205-217 | at every point the receiver holds exactly what the packets so far call for |
| `ChatFileRuns.StageOfFile` | 03-ipc-and-network-programming/07-tcp-chat-and-file-transfer/src/client.c:258-339 | the messages the pump makes for a file, empty or not, are complete |
| `ChatFileRuns.FileArrives` | 03-ipc-and-network-programming/07-tcp-chat-and-file-transfer/src/client.c:151-217 | a receiver that hears them in order, with anything in between, and keeps its connection has the file byte for byte |
| `ChatFileRuns.NothingIsRefused` | 03-ipc-and-network-programming/07-tcp-chat-and-file-transfer/src/client.c:137-217 | with a place free and nobody else sending files it keeps its connection |
| `ChatFileRuns.FileSurelyArrives` | 03-ipc-and-network-programming/07-tcp-chat-and-file-transfer/src/client.c:151-217 | and then the file is sure to arrive |
| `ChatFileRuns.KeptIffNothingHeard` | 03-ipc-and-network-programming/07-tcp-chat-and-file-transfer/src/client.c:151-217 | with only talk besides, a receiver that has missed the beginning of a file keeps its connection if and only if it hears none of its packets |
| `ChatIncoming.FileReceiver.FindIncomingFile` | 03-ipc-and-network-programming/07-tcp-chat-and-file-transfer/src/client.c:129-135 | the search through the 16 places |
| `ChatIncoming.FileReceiver.FreeIncomingFile` | 03-ipc-and-network-programming/07-tcp-chat-and-file-transfer/src/client.c:137-142 | the first free place |
| `ChatIncoming.FileReceiver.CancelIncomingFiles` | 03-ipc-and-network-programming/07-tcp-chat-and-file-transfer/src/client.c:144-149 | everything a departed sender left unfinished is removed |
| `ChatIncoming.FileReceiver.BeginIncomingFile` | 03-ipc-and-network-programming/07-tcp-chat-and-file-transfer/src/client.c:151-174 | a place and an empty temporary file, for a safe name that is not being received yet |
| `ChatIncoming.FileReceiver.WriteIncomingChunk` | 03-ipc-and-network-programming/07-tcp-chat-and-file-transfer/src/client.c:176-185 | a chunk is appended, unless it exceeds what was declared |
| `ChatIncoming.FileReceiver.FinishIncomingFile` | 03-ipc-and-network-programming/07-tcp-chat-and-file-transfer/src/client.c:187-203 | a complete file gets its final name |
| `ChatIncoming.FileReceiver.HandleReceivedMessage` | 03-ipc-and-network-programming/07-tcp-chat-and-file-transfer/src/client.c:205-217 | the dispatch, and what is shown of each message, in place |
| `ChatIncoming.FileReceiver.ProcessInput` | 03-ipc-and-network-programming/07-tcp-chat-and-file-transfer/src/client.c:219-233 | the loop on the client's input buffer handles every complete frame in place |
| `ChatIncoming.FileReceiver.ReceiveMessages` | 03-ipc-and-network-programming/07-tcp-chat-and-file-transfer/src/client.c:235-251 | receiving until the socket has no more, in pieces of any size that fit the room left, amounts to processing all bytes at once; the buffer is never found full |
| `ChatIncoming.Execute` | 03-ipc-and-network-programming/07-tcp-chat-and-file-transfer/src/client.c:205-251 | a whole run of the receiver in place is the run of framing and handling on values |
| `ChatSending.PumpNeverFails` | 03-ipc-and-network-programming/07-tcp-chat-and-file-transfer/src/client.c:311-339 | the pump waits for room for the largest packet and therefore never fails for lack of space |
| `ChatSending.PerformKeeps` | 03-ipc-and-network-programming/07-tcp-chat-and-file-transfer/src/client.c:433-475 | typing, sharing, pumping, flushing and leaving keep the record of what was said |
| `ChatSending.EverySender` | 03-ipc-and-network-programming/07-tcp-chat-and-file-transfer/src/client.c:258-339 | in every run what a client says is an orderly conversation under its own id, which the server relays (`ChatDelivery.SenderIsRelayed`), and every file queued to the end was sent completely and only once |
| `ChatSharing.ChunkCount` | 03-ipc-and-network-programming/07-tcp-chat-and-file-transfer/src/client.c:311-339 | a file takes as many chunks as there are pieces of 16384 bytes in it |
| `ChatSharing.ChunksByIndex` | 03-ipc-and-network-programming/07-tcp-chat-and-file-transfer/src/client.c:311-339 | chunk k holds the bytes from 16384 k on |
| `ChatSharing.EveryFileWasShared` | 03-ipc-and-network-programming/07-tcp-chat-and-file-transfer/src/client.c:258-339 | in every run a file sent completely is one the user asked for, with its identifier, name and content |
| `ChatSharing.ShareIsAcceptedIff` | 03-ipc-and-network-programming/07-tcp-chat-and-file-transfer/src/client.c:258-309 | a file is taken on if and only if none is under way, its name is plain and the announcement fits |
| `ChatSharing.TurnMovesIff` | 03-ipc-and-network-programming/07-tcp-chat-and-file-transfer/src/client.c:311-339 | a turn of the pump adds the next packet, and only one, exactly when a packet of 16447 bytes would fit |
| `ChatSharing.CanSendMeans` | 03-ipc-and-network-programming/07-tcp-chat-and-file-transfer/src/client.c:100-111 | when the socket takes bytes exactly those leave the output, and the client runs on unless sending fails |
| `ChatSharing.SharingCanFinish` | 03-ipc-and-network-programming/07-tcp-chat-and-file-transfer/src/client.c:311-339 | a file taken on can always be sent to its end: some continuation of nothing but sending and pumping finishes it |
| `ChatTalk.LineIsAcceptedIff` | 03-ipc-and-network-programming/07-tcp-chat-and-file-transfer/src/client.c:341-377 | a line is accepted if and only if its frame fits what is left of the output |
| `ChatTalk.LinesAreSpoken` | 03-ipc-and-network-programming/07-tcp-chat-and-file-transfer/src/client.c:341-377 | in every run the texts a client says are the lines typed, whole and in order: all of them while it runs, the first of them once it has stopped |
| `ChatTalk.EveryLineIsSpoken` | 03-ipc-and-network-programming/07-tcp-chat-and-file-transfer/src/client.c:341-475 | the same for every run from the beginning |
| `ChatTalk.StartMeans` | 03-ipc-and-network-programming/07-tcp-chat-and-file-transfer/src/client.c:420-432 | a client begins with a JOIN of its own to hand over and nothing else |
| `ChatTalk.QuitMeans` | 03-ipc-and-network-programming/07-tcp-chat-and-file-transfer/src/client.c:379-475 | a client that stops says LEAVE if that fits, and then hands over what the socket takes of what is pending |
| `ChatSending.FileSender.QueueMessage` | 03-ipc-and-network-programming/07-tcp-chat-and-file-transfer/src/client.c:81-98 | encoding into a frame and queueing it |
| `ChatSending.FileSender.HandleLine` | 03-ipc-and-network-programming/07-tcp-chat-and-file-transfer/src/client.c:373-376 | a line becomes a message that carries the whole line |
| `ChatSending.FileSender.StartOutgoingFile` | 03-ipc-and-network-programming/07-tcp-chat-and-file-transfer/src/client.c:258-309 | one file at a time, under a safe name |
| `ChatSending.FileSender.PumpOutgoingFile` | 03-ipc-and-network-programming/07-tcp-chat-and-file-transfer/src/client.c:311-339 | the next chunk of at most 16384 bytes, or the end |
| `ChatSending.FileSender.Flush` | 03-ipc-and-network-programming/07-tcp-chat-and-file-transfer/src/client.c:100-111 | the sending loop |
| `ChatSending.FileSender.Leave` | 03-ipc-and-network-programming/07-tcp-chat-and-file-transfer/src/client.c:471-475 | the last message of a run, however the run ended, and then the draining of what is pending if it was queued |
| `ChatSending.PerformAction` | 03-ipc-and-network-programming/07-tcp-chat-and-file-transfer/src/client.c:433-475 | each action of a client in place is the action on values |
| `ChatSending.Execute` | 03-ipc-and-network-programming/07-tcp-chat-and-file-transfer/src/client.c:420-475 | so is every run from its JOIN on |
| `ChatArrivals.StreamsAgree` | 03-ipc-and-network-programming/07-tcp-chat-and-file-transfer/src/protocol.c:83-95 | a stream of frames can be read in one way only |
| `ChatArrivals.RelayedAsSpoken` | 03-ipc-and-network-programming/07-tcp-chat-and-file-transfer/src/server.c:171-206 | what the server has relayed for a client is the beginning of what it said, and all of it once all bytes have arrived |
| `ChatDelivery.HeardFromSender` | 03-ipc-and-network-programming/07-tcp-chat-and-file-transfer/src/server.c:86-91 | from the moment it joins, a client hears everything another one says |
| `ChatDelivery.SenderIsRelayed` | 03-ipc-and-network-programming/07-tcp-chat-and-file-transfer/src/server.c:143-206 | whatever a client has done so far and whatever part of its bytes has arrived in a run of the server, every whole message among them has been relayed and none was refused |
| `ChatTalk.LinesAreHeard` | 03-ipc-and-network-programming/07-tcp-chat-and-file-transfer/src/server.c:86-206 | once all bytes of a client have arrived, the texts relayed before another one joined and those that one has heard from it are together the texts it said, in order |
| `ChatTalk.LinesAreShown` | 03-ipc-and-network-programming/07-tcp-chat-and-file-transfer/src/client.c:205-251 | a listener that has taken all it was sent, in pieces cut anywhere, shows exactly who came, what was said and who went since it joined, in order, if it has kept its connection, which without files it has |
| `ChatDelivery.FileIsDelivered` | 03-ipc-and-network-programming/07-tcp-chat-and-file-transfer/src/client.c:151-203 | when all the bytes of a client that has sent a file have arrived at the server, and another client that joined before the file was announced has taken all it was sent, in pieces cut anywhere, then that client has the file byte for byte, if it has kept its connection, which with only talk besides it has |
| `ChatDelivery.ListenerIsKeptIff` | 03-ipc-and-network-programming/07-tcp-chat-and-file-transfer/src/client.c:151-203 | with only talk besides, a listener keeps its connection if and only if it joined before the file was announced or hears none of its packets |
| `ChatScenarios.LateListenerIsDropped` | 03-ipc-and-network-programming/07-tcp-chat-and-file-transfer/src/client.c:176-203 | a run from the empty table, with a sender's own run, in which a client joins between the announcement and the first chunk and drops its connection |
| `RawUdp.ChecksumAdd` | 03-ipc-and-network-programming/cross-01-raw-udp-echo/src/raw_udp.c:15-26 | the loop adds the 16-bit words, an odd last byte padded, in a 32-bit accumulator |
| `RawUdp.ChecksumFinish` | 03-ipc-and-network-programming/cross-01-raw-udp-echo/src/raw_udp.c:28-33 | the loop folds the carries in and complements |
| `RawUdp.SumFits` | 03-ipc-and-network-programming/cross-01-raw-udp-echo/src/raw_udp.c:35-53 | the 32-bit sum of the largest datagram and its pseudo-header does not overflow |
| `RawUdp.UdpChecksum` | 03-ipc-and-network-programming/cross-01-raw-udp-echo/src/raw_udp.c:35-53 | the checksum is the complement of the sum, modulo 65535, of the words of both addresses, the protocol number 17, the length and the datagram, as RFC 768 has it |
| `RawUdp.UdpSumIsTotal` | 03-ipc-and-network-programming/cross-01-raw-udp-echo/src/raw_udp.c:35-53 | what is summed: the four words of the addresses, 17, the length and all words of the datagram |
| `RawUdp.ChecksumIs` | 03-ipc-and-network-programming/cross-01-raw-udp-echo/src/raw_udp.c:28-53 | and what becomes of the sum, as a number |
| `RawUdp.CarriesMayWait` | 03-ipc-and-network-programming/cross-01-raw-udp-echo/src/raw_udp.c:15-33 | adding in 32 bits and folding at the end is one's-complement addition, word by word (sections 1 and 2 of RFC 1071) |
| `RawUdp.BuildPacket` | 03-ipc-and-network-programming/cross-01-raw-udp-echo/src/raw_udp.c:59-92 | building in place writes the whole datagram or nothing |
| `RawUdp.ParsePacket` | 03-ipc-and-network-programming/cross-01-raw-udp-echo/src/raw_udp.c:94-162 | parsing a buffer |
| `RawUdp.CheckCompletes` | 03-ipc-and-network-programming/cross-01-raw-udp-echo/src/raw_udp.c:84-88 | the checksum makes the sum verify, also when zero is sent as 0xFFFF |
| `RawUdp.ParseBuilt` | 03-ipc-and-network-programming/cross-01-raw-udp-echo/src/raw_udp.c:59-162 | a built datagram is accepted as what it was built from |
| `RawUdp.ParseBuiltPacket` | 03-ipc-and-network-programming/cross-01-raw-udp-echo/src/raw_udp.c:94-162 | also behind an IPv4 header of any length and with more bytes after it |
| `RawUdp.AcceptedIsBuilt` | 03-ipc-and-network-programming/cross-01-raw-udp-echo/src/raw_udp.c:59-162 | a datagram accepted with a checksum is byte for byte what building makes of it |
| `RawUdp.AcceptedIffBuiltOrUnchecked` | 03-ipc-and-network-programming/cross-01-raw-udp-echo/src/raw_udp.c:142-152 | the length being right, a datagram is accepted exactly when it has no checksum or is one that was built |
| `RawUdp.AcceptedPacketIsBuilt` | 03-ipc-and-network-programming/cross-01-raw-udp-echo/src/raw_udp.c:94-162 | the same for a whole packet: header, datagram as built, and the rest of the buffer |
| `RawUdp.DamageGoesUnnoticedIff` | 03-ipc-and-network-programming/cross-01-raw-udp-echo/src/raw_udp.c:142-152 | a damaged payload of the same size is accepted if and only if its words sum to the same modulo 65535 |
| `RawUdp.ChangedByteIsNoticed` | 03-ipc-and-network-programming/cross-01-raw-udp-echo/src/raw_udp.c:142-152 | a single changed payload byte is always rejected |
| `RawUdp.ExchangedWordsGoUnnoticed` | 03-ipc-and-network-programming/cross-01-raw-udp-echo/src/raw_udp.c:142-152 | two words of any payload that change places, at any two even positions, are never noticed |
| `UdpWire.BuiltLayout` | 03-ipc-and-network-programming/cross-01-raw-udp-echo/src/raw_udp.c:59-92 | a datagram is built if and only if its payload is at most 65527 bytes long, and every byte of it |
| `UdpWire.ParsedIff` | 03-ipc-and-network-programming/cross-01-raw-udp-echo/src/raw_udp.c:94-162 | which packets exactly are accepted, and as what, in terms of their bytes |
| `UdpWire.KnownDatagram` | 03-ipc-and-network-programming/cross-01-raw-udp-echo/src/raw_udp.c:35-92 | a datagram with its checksum in full |
| `EchoProtocol.EncodeInto` | 03-ipc-and-network-programming/cross-01-raw-udp-echo/src/protocol.c:46-64 | encoding in place writes the whole message or nothing |
| `EchoProtocol.DecodeEncode` | 03-ipc-and-network-programming/cross-01-raw-udp-echo/src/protocol.c:46-85 | every encoded message is decoded to itself |
| `EchoProtocol.EncodeDecode` | 03-ipc-and-network-programming/cross-01-raw-udp-echo/src/protocol.c:46-85 | every accepted packet is the code of what it is decoded to |
| `EchoWire.DecodedIff` | 03-ipc-and-network-programming/cross-01-raw-udp-echo/src/protocol.c:66-85 | which bytes exactly are decoded, and to what |
| `EchoWire.EncodedIff` | 03-ipc-and-network-programming/cross-01-raw-udp-echo/src/protocol.c:46-64 | which messages exactly are encoded, and as what |
| `EchoServer.TableCounts` | 03-ipc-and-network-programming/cross-01-raw-udp-echo/src/server.c:47-97 | a client is in the table exactly when it has made requests since it last closed, with their number up to the 32-bit maximum |
| `EchoServer.EveryReply` | 03-ipc-and-network-programming/cross-01-raw-udp-echo/src/server.c:99-136 | each reply carries the text and the number of requests from that address and port since its last CLOSE, whatever others did |
| `EchoServer.ExhaustedIsRefused` | 03-ipc-and-network-programming/cross-01-raw-udp-echo/src/server.c:54-55 | a client at the maximum is refused and nothing changes |
| `EchoServer.CloseStartsOver` | 03-ipc-and-network-programming/cross-01-raw-udp-echo/src/server.c:108-114 | after CLOSE the count starts at 1 again |
| `EchoServer.RepliesCanBeSent` | 03-ipc-and-network-programming/cross-01-raw-udp-echo/src/server.c:176-198 | no reply fails to be encoded or built |
| `EchoServer.EchoComesBack` | 03-ipc-and-network-programming/cross-01-raw-udp-echo/src/server.c:160-200 | the reply packet, parsed and decoded, is the client's own text and number, from the address and port it wrote to |
| `EchoState.ServerState.FindClient` | 03-ipc-and-network-programming/cross-01-raw-udp-echo/src/server.c:84-94 | the walk remembers the link that led to the node |
| `EchoState.ServerState.NextCounter` | 03-ipc-and-network-programming/cross-01-raw-udp-echo/src/server.c:47-77 | the list of nodes, one for each client, refines the map of counters |
| `EchoState.ServerState.RemoveClient` | 03-ipc-and-network-programming/cross-01-raw-udp-echo/src/server.c:79-97 | unlinking through the link removes exactly that client |
| `EchoState.ServerState.HandleMessage` | 03-ipc-and-network-programming/cross-01-raw-udp-echo/src/server.c:99-136 | a message handled on the list is the message handled on the map |
| `EchoLoop.EveryAnswer` | 03-ipc-and-network-programming/cross-01-raw-udp-echo/src/server.c:138-198 | whatever was received before, a packet is answered if and only if it is a datagram to the server's port with a request from a client that has numbers left; the answer goes to its sender with the client's own text and the number of its request |
| `EchoWire.MessageIsHeard` | 03-ipc-and-network-programming/cross-01-raw-udp-echo/src/server.c:160-175 | every message that can be encoded, built and sent to the port behind any IPv4 header is heard as what it is |
| `EchoWire.RequestIsAnswered` | 03-ipc-and-network-programming/cross-01-raw-udp-echo/src/server.c:138-198 | whatever was received before, a request of at most 1024 bytes is answered with its text and the next number of its client, until the numbers are used up |
| `EchoWire.CloseIsHeard` | 03-ipc-and-network-programming/cross-01-raw-udp-echo/src/server.c:99-136 | a CLOSE is not answered, and the next request of its client counts as the first |
| `EchoWire.AnswerLayout` | 03-ipc-and-network-programming/cross-01-raw-udp-echo/src/server.c:176-198 | the answer, byte by byte |
| `EchoLoop.HandlePacket` | 03-ipc-and-network-programming/cross-01-raw-udp-echo/src/server.c:160-198 | one turn of the loop in place: parsing, decoding, handling, encoding and building; encoding and building never fail |
| `EchoLoop.Execute` | 03-ipc-and-network-programming/cross-01-raw-udp-echo/src/server.c:138-211 | a whole run in place leaves the table that the packets call for and sends exactly the answers they call for |
| `TaxiDriver.CompareTime` | 03-ipc-and-network-programming/cross-02-taxi-process-manager/src/driver.c:31-35 | seconds and nanoseconds compare as the time they stand for |
| `TaxiDriver.RemainingSeconds` | 03-ipc-and-network-programming/cross-02-taxi-process-manager/src/driver.c:41-54 | the remaining time in seconds, rounded up, within 0 and the 32-bit maximum |
| `TaxiDriver.CeilIsLeast` | 03-ipc-and-network-programming/cross-02-taxi-process-manager/src/driver.c:41-54 | rounded up means the least number of seconds that covers the time |
| `TaxiDriver.MakeTimeout` | 03-ipc-and-network-programming/cross-02-taxi-process-manager/src/driver.c:56-70 | the timeout is the remaining time in microseconds, rounded down, never negative |
| `TaxiDriver.Driver.UpdateState` | 03-ipc-and-network-programming/cross-02-taxi-process-manager/src/driver.c:37-39 | a task is over exactly when its deadline is reached |
| `TaxiDriver.Driver.Status` | 03-ipc-and-network-programming/cross-02-taxi-process-manager/src/driver.c:106-114 | busy with the seconds left, or available |
| `TaxiDriver.Driver.HandleMessage` | 03-ipc-and-network-programming/cross-02-taxi-process-manager/src/driver.c:116-150 | the dispatch, in place; it fails exactly when there is a reply and sending fails |
| `TaxiDriver.Execute` | 03-ipc-and-network-programming/cross-02-taxi-process-manager/src/driver.c:198-227 | a whole run in place goes through the states and gives the replies of the run on values, up to the first reply that cannot be sent |
| `TaxiDriver.HandleIsOk` | 03-ipc-and-network-programming/cross-02-taxi-process-manager/src/driver.c:116-150 | each reply is the one that the tasks accepted so far call for, without looking at the driver's state |
| `TaxiDriver.TasksAreAccepted` | 03-ipc-and-network-programming/cross-02-taxi-process-manager/src/driver.c:126-139 | the tasks on record are exactly those answered with TASK_ACCEPTED, with the time and the timer of the message |
| `TaxiDriver.RunsUntilStopped` | 03-ipc-and-network-programming/cross-02-taxi-process-manager/src/driver.c:140-150 | the driver runs if and only if it has had no SHUTDOWN |
| `TaxiDriver.NoTaskTooEarly` | 03-ipc-and-network-programming/cross-02-taxi-process-manager/src/driver.c:126-139 | under a monotonic clock no task is accepted before the one before it has had the seconds of its timer |
| `TaxiDriver.EveryReply` | 03-ipc-and-network-programming/cross-02-taxi-process-manager/src/driver.c:116-150 | in every run each reply follows from the messages so far: which tasks were accepted and whether the driver was told to stop |
| `TaxiDriver.BusyReplyIsExact` | 03-ipc-and-network-programming/cross-02-taxi-process-manager/src/driver.c:106-128 | until it is told to stop the driver answers BUSY exactly while the last task accepted has not had the seconds of its timer, and then with the seconds left, rounded up, at least 1 and at most the timer |

## Left out

- The remaining programs of the repository: kernel modules, message queues, the POSIX shared memory program (the same block list and consumers as the System V one), the other phone books (copies or subsets of these), subnet and permission tools, packet capture.
- Splitting text into tokens, number syntax, plugin loading and plugins that fail to load: the calculator starts from tokens and a table of operations. Numbers are abstract, so rounding is not modelled; whether a divisor is zero is a parameter.
- Contact fields other than name and last name, their editors, phone numbers and links, printing and searching by name.
- Failure of memory allocation, semaphores, epoll, file operations and the clock: they are taken to succeed. Freeing memory is not modelled; a removed node is merely no longer linked.
- Clearing a phone book without its identifiers, or the other way round: each function allows a null argument, and then the account of identifiers is lost.
- A shared-memory process that dies between taking and finishing a block leaves it in progress for ever; processes are taken to run on.
- Sleeping, signals and the removal of the semaphore and the segment, and start-up: consumers are taken to find an initialized segment.
- Offsets into the shared segment are counted in words of four bytes, which all its fields are multiples of; the bytes within a word are not modelled.
- The values that the producer draws are a parameter of its step.
- Sockets, epoll and poll: the order of events is arbitrary, and what a socket takes or hands over is a parameter of each call. TCP is taken to deliver bytes in order.
- Lines typed into the chat client are modelled once they are known not to be commands and to fit; the path of a file given with /file is modelled by its last component and the content of the file.
- Transfer identifiers are drawn at random in the client; in the model each drawn one is not zero and has not been used by that client before.
- What the client prints is modelled as the lines of a screen, for messages received; error texts and the lines about its own sending are left out.
- Files on disk are a map from paths to contents; reading a file while it is being changed by others is not modelled.
- ChatDelivery.FileIsDelivered: the listener joined before the file was announced, because one that joins later has missed the beginning (`ChatDelivery.ListenerIsKeptIff` says what becomes of it), and no other connection uses the sender's id, which the server does not check.
- ChatFileRuns.FileSurelyArrives: only talk besides the file, because packets of other files can make the receiver drop its connection.
- CalculatorMachine.Calculator.CalculateExpression: splitting the line into tokens, and the errors of that, are not part of this model.
- AvlBook.PhoneBook.Create: the phone number is checked for its length and, like the patronymic, addresses and job title, not kept.
- ListBook.PhoneBook.Create: the same; whether the caller asked for the identifier is not modelled, it is always handed out.
- ChatServer.ServerClient.Clear: the old bytes stay in the buffers, whose sizes are set to zero, instead of being overwritten.
- Sender names in the server's records are sequences of 32 bytes and not arrays.
- TaxiDriver.Driver.HandleMessage: the driver's frames and its input buffer are left out, since they are a simpler case of the chat's; seconds are unbounded, where the program has time_t.
- The taxi control process with its command line, the echo client, and the order in which the chat client's main loop turns to its socket, its files and its input: its sending and its receiving half are modelled apart.
- SharedProgress.CanAlwaysFinish: that the processes do go on is up to the scheduler and is not claimed.
- EchoLoop.Execute: a packet that recvfrom hands over is at most 65535 bytes long, and sending succeeds; a failure would end the run.
- EchoServer.EchoComesBack: the IPv4 header in front of a reply is written by the operating system and is a parameter.
