# Verified models of the configuration, network and XML code

Dafny models of five parts of the framework, and proofs about them. `dafny verify dfyconfig.toml`
checks the whole project.

**Configuration files** (`framework/base/config`, the bundled libconfig). `ConfigTables` holds the
parser's tables and the finite facts about them; `ConfigParser` is the shift-reduce automaton over
any semantic actions, with derivation trees as the independent notion of what it should accept.
`ConfigHeap` is the tree of settings as linked nodes, `ConfigActions` the semantic actions with
their two cursors and, separately, the meaning of a derivation. `ConfigReader` has the parser as the
loop it is, `ConfigApi` the operations on settings as a class, `ConfigRuns` all sequences of them,
`ConfigStores` what they store, add and remove, `ConfigPath` lookup by path. `ConfigScanner` is the
scanner, `ConfigRules` (over `ConfigRegex`) proves it to be the longest match among the rules of
`scanner.l`, `ConfigComments` what comments and strings come to, `ConfigText` and `ConfigFile` the
writer's text; together with `ConfigRoundTrip` they close the circle from a configuration to its
text and back (`ConfigFile.FileRoundTrip`), and `ConfigSaved` says it of what the operations can
have built. `ConfigBuffers` has the chunked element array and the growing string buffer in place,
`ConfigLiterals` and `ConfigNumbers` the literals.

**Streams** (`framework/netmgr`, `framework/base/util/memblock.cpp`). `Framing` and `Lines` say what
cutting a byte stream into messages means and that the pieces it comes in do not matter (for lines:
exactly when they do not); `NetHandler` has the growable block, the extraction loops and the
connection's receive and send buffers.

**Hand-off between threads** (`framework/base/util/objectqueue.h`,
`framework/netmgr/msgcallback.cpp`, `framework/base/net/pipeeventhandler.cpp`). `ObjectQueue` is the
bounded queue and stack, `Wakeup` the protocol of putting, notifying, receiving and draining as
steps in any order, `ResultPipe` the methods that take these steps. `ObjectPool`
(`framework/base/util/allocator.h`) and `ServiceRequests` (request numbers of
`framework/netmgr/coder.cpp`) are two smaller protocols.

**MD5** (`framework/base/third`). `Md5Reference` states RFC 1321, sections 3.1 to 3.5, over 32-bit
words; `Md5Words` is the block function of the code over 64-bit words whose upper halves are never
cleared; `Md5` the streaming context. Words are sequences of bits (`Md5Bits`).

**XML** (`framework/base/config/tinyxml*`). `XmlNodes` and `XmlAttributeSet` are the doubly linked
lists of children and attributes, on the heap; `XmlText`, `XmlReferences` and `XmlAttribute`
encoding, decoding, what references stand for, and the attribute round trip; `Utf8` the encoder
against RFC 3629; `XmlLines` end-of-line normalization against XML 1.0, section 2.11.

Several properties one would expect turn out not to hold everywhere; they are stated as exact
conditions. A written configuration reads back only if it is printable, not nested beyond the
parser's stack limit and without members named true or false, which are valid names.
`config_setting_add` neither checks the types of array elements nor insists on member names. A
failed encoding ends the drain loop and can leave messages waiting; a failed receive removes the
read handler, and then every message waits for ever. The MD5 byte count takes at most one carry per
call. Text with a hexadecimal character reference does not survive an XML attribute. `LinkEndChild`
on a node that is a child already breaks the list. Replies to requests without service and key keep
the internal number, which is the client's only if the counter had come to it; a number unanswered
for 2^32 requests makes a registration fail.

Where names or comments say something else than the code, the code is followed: `uint32` of
`framework/base/third/md5.h` is 64 bits wide where `unsigned long` is; the request and result queues
of `framework/netmgr/connectionmgr.h` are stacks, so both kinds are modelled; an ampersand that
starts no known entity is dropped by `framework/base/config/tinyxmlparser.cpp`, although the comment
there says that it is returned.

## Model

| member | source | states |
|---|---|---|
| `ConfigTables.ReduceFact` | framework/base/config/grammar.c:569-634 | every reduction the tables call for, in whatever state and on whatever look-ahead, is of one of the rules and of one that is complete in that state |
| `ConfigTables.BackFact` | framework/base/config/grammar.c:588-634 | wherever a state can lie above another on the stack, the symbol before the dot of an item of the upper state is the one by which that state is entered, and the lower state has the item with the dot one place back |
| `ConfigTables.WeightFact` | framework/base/config/grammar.c:569-607 | each reduction makes a weight of the state stack smaller, so reductions without a shift in between come to an end |
| `ConfigParser.HandleOnTop` | framework/base/config/grammar.c:1446-1461 | when a rule is reduced, its whole right-hand side lies on the stack and a state remains below it that has a goto: the stack never underflows and no goto is invalid |
| `ConfigParser.StepSafe` | framework/base/config/grammar.c:1296-1461 | in every reachable configuration of the automaton a shift, reduction, acceptance or refusal is well defined |
| `ConfigParser.StepInv` | framework/base/config/grammar.c:1296-1461 | each turn of the shift-reduce loop keeps the states chained by the tables and gets nearer to the end, so the loop stops on every input |
| `ConfigParser.ParserCorrect` | framework/base/config/grammar.c:1195-1930 | soundness and completeness at once: within the stack limit the loop accepts an input with a result if and only if there is a derivation from the 36 productions that yields the input and whose semantic actions, run left to right, give that result |
| `ConfigParser.DerivableOutcome` | framework/base/config/grammar.c:1320-1360 | a derivable input on which no action aborts is accepted with the result of its derivation if that fits the stack limit YYMAXDEPTH, and refused for exhaustion if it does not |
| `ConfigReader.NoErrorRule` | framework/base/config/grammar.c:1771-1862 | no state shifts the error token, so the recovery code of the parser never resumes |
| `ConfigReader.Parser.Yyparse` | framework/base/config/grammar.c:1195-1930 | the goto loop with its two stacks, its look-ahead and its actions on the tree returns 0, 1 or 2 exactly as the specified run ends, and leaves the tree and cursors of that run |
| `ConfigReader.Parser.Reduce` | framework/base/config/grammar.c:1465-1739 | the switch of semantic actions changes the tree and the parent and setting cursors as specified, and fails exactly when the action aborts |
| `ConfigActions.ExecConfiguration` | framework/base/config/grammar.c:1465-1739 | the actions over any derivation from the empty tree abort if and only if the text has no meaning (an invalid name, a name twice in a group, an array of mixed types), and otherwise build the tree of its meaning, with the parent cursor back at the root |
| `ConfigActions.ExecValue` | framework/base/config/grammar.c:1484-1739 | the actions of one value either fill the setting under construction or append one element to the vector at the cursor, and leave everything else as it was |
| `ConfigActions.ExecMembers` | framework/base/config/grammar.c:1467-1483 | the actions of a row of members append these members to the group at the cursor, or abort at the first name that is invalid or taken |
| `ConfigCursors.ReadSafely` | framework/base/config/grammar.c:1465-1739 | for every token sequence, derivable or not, no action dereferences a missing parent or setting cursor, and the tree left behind is well formed, well named and one-typed in its arrays |
| `ConfigRoundTrip.ReadCorrect` | framework/base/config/grammar.c:1195-1930 | what reading returns, against derivations and their meanings: the configuration read is c if and only if the input has a derivation that fits the stacks and means c |
| `ConfigRoundTrip.ValuePrintable` | framework/base/config/grammar.c:1484-1739 | whatever can be read is printable: typed, truth values 0 or 1, strings present, arrays of scalars of one type, valid and distinct names |
| `ConfigRoundTrip.WrittenIsRead` | framework/base/config/libconfig.c:168-390 | the tokens of every printable configuration are accepted and give that configuration if its nesting fits the stacks, and exhaust the parser if not |
| `ConfigRoundTrip.RoundTrip` | framework/base/config/libconfig.c:168-390 | reading the tokens the writer prints gives the same names, types, formats, values, order and nesting if and only if the configuration is printable and its nesting fits the parser |
| `ConfigRoundTrip.UntypedLost` | framework/base/config/libconfig.c:384-390 | a configuration that is not printable: a setting without a type is written as question marks and not read back |
| `ConfigRules.LexIs` | framework/base/config/scanner.l:86-178 | with the rules of the file as regular expressions and Matches their independent meaning: the scanner does on every text exactly what the rule does that matches most of it, and of those that match as much the first in the file |
| `ConfigRules.OneRuleTakes` | framework/base/config/scanner.l:86-178 | on every text that is not at its end there is exactly one such rule and length |
| `ConfigRules.OutsideIs` | framework/base/config/scanner.l:96-155 | the model leaves off exactly where an include directive could begin: at an at sign, with blanks in front of it or without |
| `ConfigRules.TrueIs` | framework/base/config/scanner.l:86 | true is the four letters t, r, u, e, each in either case |
| `ConfigRules.FalseIs` | framework/base/config/scanner.l:87 | false is the five letters f, a, l, s, e, each in either case |
| `ConfigComments.StringIs` | framework/base/config/scanner.l:108-124 | inside a string the same holds of the rules for strings: each escape adds the character it stands for, the closing quote ends the string, and what no rule matches adds nothing |
| `ConfigComments.LineSkipped` | framework/base/config/scanner.l:95-177 | a comment to the end of its line, with either mark and any text in it, is as if it were not there |
| `ConfigComments.LastLine` | framework/base/config/scanner.l:95-178 | at the end of the text, with no newline behind it, it is no comment: its mark is a garbage token |
| `ConfigComments.LastLineRefused` | framework/base/config/scanner.l:95-178 | so a text that ends in such a line is never accepted, whatever stands in front of it |
| `ConfigComments.GarbageRefused` | framework/base/config/grammar.c:569-634 | no token sequence with a garbage token in it is accepted |
| `ConfigComments.BlockSkipped` | framework/base/config/scanner.l:102-105 | a block comment is skipped up to its first end mark, whatever is in it |
| `ConfigComments.OpenBlock` | framework/base/config/scanner.l:102-190 | one that is never ended takes the rest of the text away without an error |
| `ConfigComments.OpenString` | framework/base/config/scanner.l:107-190 | and so does a string that is never closed |
| `ConfigText.StringBack` | framework/base/config/libconfig.c:246-291 | every C string written with the writer's escapes scans back to itself, whatever follows the closing quote |
| `ConfigText.HexScans` | framework/base/config/libconfig.c:182-193 | a 32-bit number written in hexadecimal, negative ones as their unsigned word, scans as a hexadecimal token of the same value |
| `ConfigText.Hex64Scans` | framework/base/config/libconfig.c:195-208 | the same for 64-bit numbers with their suffix |
| `ConfigText.IntegerScans` | framework/base/config/libconfig.c:182-193 | a 32-bit number written in decimal scans as an integer token of the same value, no other rule of the scanner matching longer |
| `ConfigText.FloatScans` | framework/base/config/scanner.l:94 | the text of a floating-point number followed by a separator scans as one float token of that text |
| `ConfigText.NameScans` | framework/base/config/scanner.l:86-88 | a valid setting name scans as that name if and only if it is not true or false in some mixture of cases |
| `ConfigText.ScalarScans` | framework/base/config/libconfig.c:168-294 | every scalar the writer can print is one match of the scanner: the token of its type, format and value |
| `ConfigText.ExampleNumbers` | framework/base/config/libconfig.c:168-208 | numbers and truth values look like 1, -2, 0x1F, 0x1FL, -2L, true and false |
| `ConfigText.ExampleEscapes` | framework/base/config/libconfig.c:246-291 | which escape is written for which character, one example of each kind |
| `ConfigFile.ValueScans` | framework/base/config/libconfig.c:168-390 | the text of any value, at any depth and indentation, untyped settings and names that are keywords included, scans to the tokens of that value, a name true or false in any mixture of cases to a truth value |
| `ConfigFile.MembersScan` | framework/base/config/libconfig.c:619-640 | the lines of a group, indented and terminated, scan to the tokens of its members, on the same terms |
| `ConfigFile.FileScans` | framework/base/config/libconfig.c:644-651 | the whole file scans to the tokens of the configuration, on the same terms |
| `ConfigFile.FileRoundTrip` | framework/base/config/libconfig.c:549-651 | for every configuration the library can hold: writing it to text and reading the text back gives the same configuration if and only if it is printable, its nesting fits the parser and no member at any depth is named true or false in some mixture of cases; the tab width plays no part |
| `ConfigFile.MeaningFree` | framework/base/config/scanner.l:86-88 | no derivation from tokens the scanner can return means a configuration with a member of such a name |
| `ConfigFile.KeywordLost` | framework/base/config/libconfig.c:619-640 | a printable configuration whose nesting fits that is not read back from its text: one member named true |
| `ConfigFile.IndentIs` | framework/base/config/libconfig.c:154-164 | a member is indented by a tab, or by so many spaces, for each group around it, and by nothing in the file itself |
| `ConfigFile.ArrayWritten` | framework/base/config/libconfig.c:293-350 | two elements stand between brackets or parentheses with a comma and blanks |
| `ConfigFile.GroupWritten` | framework/base/config/libconfig.c:352-382 | a group in the file: its name and a colon, braces on lines of their own, its member indented, with an equals sign and a semicolon |
| `ConfigSaved.GoodPrintable` | framework/base/config/libconfig.c:168-390 | a tree that keeps the invariants of the operations is printable if and only if every setting has a type, truth values are 0 or 1 and no string is null |
| `ConfigSaved.SavedTokens` | framework/base/config/libconfig.c:1219-1546 | after every run of checked operations from an empty configuration, writing and reading returns the same configuration if and only if that holds and the nesting fits |
| `ConfigSaved.SavedText` | framework/base/config/libconfig.c:549-651 | the same through the text, where names true and false are lost besides |
| `ConfigLiterals.ScanString` | framework/base/config/scanner.c:994-1046 | the rules of the STRING state, appending to the growing string buffer, decode a literal as specified and leave the buffer empty for the next one |
| `ConfigLiterals.WriteString` | framework/base/config/libconfig.c:246-291 | the writer's character loop prints the escaped form |
| `ConfigNumbers.IntRoundTrip` | framework/base/config/libconfig.c:182-208 | atoi reads a printed number back, whatever follows that is no digit |
| `ConfigNumbers.HexRoundTrip` | framework/base/config/scanner.c:1160-1172 | strtoul in base 16 reads printed hexadecimal digits back |
| `ConfigNumbers.AtoiReads` | framework/base/config/scanner.l:165-166 | atoi skips any of the six white space characters, takes either sign, and reads the digits up to anything else |
| `ConfigNumbers.Signed32` | framework/base/config/scanner.l:165-170 | what is stored in 32 bits is the one number of that range that differs by a multiple of 2^32 |
| `ConfigNumbers.Signed64` | framework/base/config/scanner.l:166-171 | the same for 64 bits |
| `ConfigNumbers.ClampedIs` | framework/base/config/scanner.l:165-171 | a number that 64 bits cannot hold becomes the nearest one that they can |
| `ConfigNumbers.Fromhex` | framework/base/config/scanner.c:592-624 | the shift-and-or loop gives the value of the digits modulo 2^64 |
| `ConfigBuffers.StrBuf.Append` | framework/base/config/strbuf.c:41-55 | appending keeps what was there, grows the buffer in whole blocks and keeps the terminator inside it |
| `ConfigBuffers.List.Add` | framework/base/config/libconfig.c:394-405 | the element array always has room for the slot written, in chunks of sixteen |
| `ConfigBuffers.List.Remove` | framework/base/config/libconfig.c:438-453 | removing moves the later elements down one place and keeps the chunk |
| `ConfigApi.NameCompare` | framework/base/config/libconfig.c:128-150 | the result is that of strcmp on the names up to their first path separators: 0, -1 or 1 as the first is equal, lower or higher, characters being signed |
| `ConfigApi.OrderTurns` | framework/base/config/libconfig.c:128-150 | this is an order: exchanging the names changes the sign, and only equal names are level |
| `ConfigApi.OrderMeans` | framework/base/config/libconfig.c:128-150 | the first difference decides it, by signed characters, and a front of a name comes before the name |
| `ConfigApi.ValidateName` | framework/base/config/libconfig.c:528-545 | exactly the valid names pass |
| `ConfigApi.Config.ListSearch` | framework/base/config/libconfig.c:409-434 | the index found is that of the first setting whose name agrees; -1 if there is none |
| `ConfigApi.Config.Add` | framework/base/config/libconfig.c:1476-1498 | a setting is added exactly when the parent may hold it, and then as the last child |
| `ConfigApi.Config.Destroy` | framework/base/config/libconfig.c:457-500 | destroying a setting removes it and everything below it, and nothing else |
| `ConfigApi.Config.RemoveMember` | framework/base/config/libconfig.c:1502-1521 | the member of that name goes, with everything below it |
| `ConfigApi.Config.RemoveElem` | framework/base/config/libconfig.c:1524-1546 | the element at that index goes, with everything below it |
| `ConfigApi.Config.SetElem` | framework/base/config/libconfig.c:1219-1246 | an element setter stores in the element, appends for a negative index, and refuses a mistyped or missing one without a change; what that comes to is stated by the lemmas of ConfigStores |
| `ConfigApi.Config.Index` | framework/base/config/libconfig.c:1550-1567 | the index of a setting among the children of its parent; -1 for the root |
| `ConfigStores.StoredInSetting` | framework/base/config/libconfig.c:898-1063 | a setter succeeds if and only if the setting has no type or one that fits, and then the setting stands for the value, has the type it had or took, and is otherwise as before; a 64-bit value in a 32-bit setting is itself if it fits and 0 if not |
| `ConfigStores.StoredIsRead` | framework/base/config/libconfig.c:768-1047 | the getter of the type reads what was stored, either integer getter reads an integer as far as it fits, and the others find nothing |
| `ConfigStores.ElementTaken` | framework/base/config/libconfig.c:1219-1246 | storing in an element succeeds if and only if the target is an array or list, the index is in range and the type fits |
| `ConfigStores.StoredInElement` | framework/base/config/libconfig.c:1219-1246 | then the element at that index and its item stand for the value, and every other cell and item is as before |
| `ConfigStores.StoredAtEnd` | framework/base/config/libconfig.c:1219-1246 | a negative index appends one item of the value, unless an array has elements of another type |
| `ConfigStores.FormatGiven` | framework/base/config/libconfig.c:1067-1078 | a format is given to integers only, and nothing else changes |
| `ConfigStores.AddMeans` | framework/base/config/libconfig.c:1476-1498 | exactly when a setting is added, when the call dereferences a null name, and that a checked call appends one empty item of the type and nothing else |
| `ConfigStores.RemovedMember` | framework/base/config/libconfig.c:1502-1521 | out of a group goes the one member whose name is the given one up to its first separator; without one nothing changes |
| `ConfigStores.RemovedElement` | framework/base/config/libconfig.c:1524-1546 | out of any aggregate goes the element at the index; without one nothing changes |
| `ConfigGrowth.CreateExtends` | framework/base/config/libconfig.c:737-764 | a new setting keeps every invariant of the tree and appears as the last item of its parent, all other items unchanged |
| `ConfigRemoval.RemoveGood` | framework/base/config/libconfig.c:438-453 | removal keeps parent and child links agreeing, names distinct and arrays one-typed |
| `ConfigRemoval.RemoveItems` | framework/base/config/libconfig.c:438-453 | the items of the parent are the former ones without the one removed |
| `ConfigRuns.ApplyGood` | framework/base/config/libconfig.c:1476-1546 | an operation keeps the invariants of the tree if and only if the caller has checked what config_setting_add does not: the type of a new array element and the name of a new group member |
| `ConfigRuns.UnnamedMember` | framework/base/config/libconfig.c:1476-1498 | a member without a name can be added to a group, and then names are no longer well formed |
| `ConfigRuns.MistypedElement` | framework/base/config/libconfig.c:1476-1498 | config_setting_add puts an element of another type into an array |
| `ConfigRuns.RunsFromEmpty` | framework/base/config/libconfig.c:1219-1546 | in every run of checked operations from an empty configuration, names are valid and distinct, links agree and arrays are one-typed |
| `ConfigPath.LookupFrom` | framework/base/config/libconfig.c:1088-1117 | the character loop returns the setting the path leads to, component by component, or null; positions are cut to 64 bits by atoi and to an unsigned int by the element lookup |
| `ConfigPath.FoundBelow` | framework/base/config/libconfig.c:1088-1117 | what is found is in the tree and below the start |
| `ConfigPath.LookupInvertsPath` | framework/base/config/libconfig.c:1088-1117 | looking up the path of any setting of a linked and well named tree, its arrays mistyped or not, made of names and bracketed positions in any mixture, with any separator, returns that setting |
| `ConfigPath.LookupBySeparators` | framework/base/config/libconfig.c:44 | the separators are the point, the colon and the slash |
| `ConfigPath.LookupEnd` | framework/base/config/libconfig.c:1088-1117 | the end of a path is where the search has come to, and a separator does not move it |
| `ConfigPath.LookupName` | framework/base/config/libconfig.c:1088-1117 | a name leads to the member of that name, and nowhere if there is none |
| `ConfigPath.LookupIndex` | framework/base/config/libconfig.c:1088-1117 | a number in brackets leads to the child at that place, and nowhere if there is none |
| `ConfigPath.FollowParts` | framework/base/config/libconfig.c:1088-1117 | a path in two parts leads where the second leads from where the first leads |
| `ConfigPath.Leniency` | framework/base/config/libconfig.c:1088-1117 | with positions read as the code reads them, the loop parts from the strict reading of a path exactly if the path ends in a bare bracket behind a setting that has no element 0, and then returns that setting |
| `ConfigPath.PositionDeparts` | framework/base/config/libconfig.c:1088-1117 | a position is not the number written exactly if that is negative or has more than 32 bits, and this changes what is found exactly if an element is at what is left of it |
| `ConfigPath.PositionWraps` | framework/base/config/libconfig.c:1088-1117 | for example 4294967296 is read as 0 |
| `Framing.ExtractMeans` | framework/netmgr/coder.cpp:22-59 | extraction cuts the longest row of whole frames off the front and emits exactly their messages, and behind them stands an incomplete frame, the frame that does not decode or the one shorter than its header, as the outcome says |
| `Framing.ExtractMore` | framework/netmgr/coder.cpp:22-59 | extracting from a prefix and then from the remainder with more bytes gives the messages of one extraction |
| `Framing.ChunkIndependence` | framework/netmgr/coder.cpp:22-59 | however a stream is split across receives, the messages, the remaining buffer and the failure state are those of one pass over the whole |
| `Framing.BytesAccounted` | framework/netmgr/eventhandler.cpp:44-95 | whatever the status: the bytes received are the frames emitted followed by the buffer while the connection is open, and by the frame that could not be taken once it is not |
| `Framing.StreamRoundTrip` | framework/netmgr/coder.cpp:255-274 | what was framed and sent comes out body by body, except that an empty body at the very end waits for a further byte |
| `Framing.NetworkOrder` | framework/netmgr/coder.cpp:22-45 | the length in a header has its most significant byte first |
| `Lines.LinesIndependence` | framework/netmgr/coder.cpp:173-192 | all ways of splitting a stream of lines give the same messages and remaining bytes if and only if no line that fails to decode has another whole line behind it |
| `Lines.CutsDiffer` | framework/netmgr/coder.cpp:173-192 | where a line fails to decode, cutting the stream behind it makes a difference |
| `Lines.LineTaken` | framework/netmgr/coder.cpp:173-192 | lines end in the byte 10 and are decoded with it, one after the other, up to one that fails, which is used up |
| `NetHandler.ExtractFrames` | framework/netmgr/coder.cpp:22-59 | the pointer loop computes the specified extraction |
| `NetHandler.ExtractLines` | framework/netmgr/coder.cpp:173-192 | the index loop computes the specified lines |
| `NetHandler.MemBlock.Resize` | framework/base/util/memblock.cpp:63-89 | resizing keeps the contents and the bounds of the block |
| `NetHandler.MemBlock.Copy` | framework/base/util/memblock.cpp:91-155 | copying splices the bytes in, growing the block if need be, also when source and destination overlap in the block; it refuses a destination behind the contents |
| `NetHandler.Handler.HandleInput` | framework/netmgr/eventhandler.cpp:44-95 | one receive event feeds the bytes to the extraction, keeps the unused rest in the buffer, and closes on errors and failed extractions |
| `NetHandler.Handler.HandleOutput` | framework/netmgr/eventhandler.cpp:97-159 | over every run, the bytes handed to the socket followed by the send buffer are all the data ever sent, whatever part of it each write takes; the connection is closed if and only if there was something to send and the write took nothing or failed, or more is to be written and the registration for it fails; an interrupted write changes nothing |
| `NetHandler.Handler.Send` | framework/netmgr/eventhandler.cpp:175-181 | sending appends to the data to be sent, keeps that law and closes the connection on the same terms |
| `ObjectQueue.FirstInFirstOut` | framework/base/util/objectqueue.h:96-145 | over every run of puts and gets, a queue gives out what it held and then what was put in, in that order |
| `ObjectQueue.LastInFirstOut` | framework/base/util/objectqueue.h:159-178 | what was put on a stack comes off in reverse order before anything it held |
| `ObjectQueue.NothingLost` | framework/base/util/objectqueue.h:96-178 | over every run, every value is given out or still held as often as it was put in |
| `ObjectQueue.SyncObjectQueue.PutImplement` | framework/base/util/objectqueue.h:96-111 | a put is refused exactly if the limit applies and is reached; otherwise it adds the value |
| `ObjectQueue.SyncObjectQueue.Get` | framework/base/util/objectqueue.h:113-145 | a get that does not wait takes the front value or reports that there is none |
| `Wakeup.PutMeans` | framework/base/util/objectqueue.h:96-178 | a message is refused if and only if the limit applies and is reached, and otherwise waits behind the others in a queue, before them on a stack |
| `Wakeup.QueueBounded` | framework/base/util/objectqueue.h:96-111 | in every interleaving in which the limit applies to every message, no more than that many wait |
| `Wakeup.StallsExactly` | framework/netmgr/msgcallback.cpp:32-85 | a step makes messages wait with nothing on its way to fetch them in exactly three ways: the drain loop gives up on a message that cannot be encoded while others wait, no byte is in the pipe and no worker is about to notify; a failed receive removes the read handler while messages wait; or a message is accepted when the handler is gone |
| `Wakeup.StallEnds` | framework/base/net/pipeeventhandler.cpp:37-59 | out of that state leads only another accepted put, and only while the read handler is registered |
| `Wakeup.DeafStays` | framework/base/net/pipeeventhandler.cpp:47-52 | once a failed receive has removed the handler, no run takes a message from the queue any more |
| `Wakeup.StepConserves` | framework/base/util/objectqueue.h:25-43 | each step conserves the accepted messages: taken or waiting, none lost, none twice, for a queue in order |
| `Wakeup.NoLostWakeup` | framework/base/net/pipeeventhandler.cpp:37-59 | in every interleaving of workers and event thread, accepted messages are conserved, and while no message failed to encode and no receive failed a waiting message has a byte in the pipe, a worker about to notify or the drain loop running |
| `Wakeup.WorkShrinks` | framework/netmgr/msgcallback.cpp:27-85 | without new messages every step but an interrupted receive brings the end nearer |
| `Wakeup.AllDelivered` | framework/netmgr/msgcallback.cpp:32-85 | when nothing can happen any more, no message failed to encode and no receive failed, every accepted message has been taken and dealt with, by a queue in order of arrival |
| `Wakeup.TakeMeans` | framework/netmgr/msgcallback.cpp:32-85 | one turn of the drain loop sends the reply if and only if the handler is there and the length is positive, closes the connection for length 0, gives up for a negative one, and skips a null message or one without a handler |
| `Wakeup.AllSent` | framework/netmgr/msgcallback.cpp:32-85 | over every run that comes to rest with the handler registered, if every message can be encoded: each accepted message was taken as often as it was put in, and its reply sent if and only if it had a handler and a positive length |
| `Wakeup.FailureStalls` | framework/netmgr/msgcallback.cpp:64-69 | a run in which a failed encoding leaves a message waiting for ever |
| `Wakeup.LostListenerStalls` | framework/base/net/pipeeventhandler.cpp:47-52 | a run in which a failed receive does, without any failed encoding |
| `ResultPipe.DrainMeans` | framework/netmgr/msgcallback.cpp:32-85 | the drain loop takes messages from the front and leaves the others in order; a message is sent, closes its connection, fails, finds no handler or is skipped exactly as its handler and the length its coder returns say |
| `ResultPipe.DrainStops` | framework/netmgr/msgcallback.cpp:32-85 | it empties the queue if and only if every message can be encoded, and otherwise stops right behind the first that cannot |
| `ResultPipe.DrainIsRun` | framework/netmgr/msgcallback.cpp:32-85 | an undisturbed drain loop is a run of the protocol |
| `ResultPipe.EventIsRun` | framework/base/net/pipeeventhandler.cpp:37-59 | so is every event on the pipe, whatever its receive returns |
| `ResultPipe.Pipe.Put` | framework/base/util/objectqueue.h:25-33 | a put and its notification are a run of the protocol: a byte goes into the pipe exactly if the put succeeded, the handler is there and there is room |
| `ResultPipe.Pipe.Call` | framework/netmgr/msgcallback.cpp:32-85 | the loop over gets does what the drain specification says |
| `ResultPipe.Pipe.HandleInput` | framework/base/net/pipeeventhandler.cpp:37-59 | an event on the pipe is a run of the protocol, also when the receive fails: it takes bytes out of the pipe and drains; an interrupted receive changes nothing; a failed one removes the handler |
| `Md5Bits.PlusAssociates` | framework/base/third/md5.cpp:79-82 | unsigned addition may be regrouped, so the sums of the macro P are those of the standard |
| `Md5Bits.LowPlus` | framework/base/third/md5.h:12 | the lower bits of a sum depend on the lower bits of the operands only, whatever the upper halves hold |
| `Md5Words.S64Same` | framework/base/third/md5.cpp:77 | the shift macro on a 64-bit word with a dirty upper half rotates the lower half as RFC 1321 rotates its 32-bit word |
| `Md5Words.F1Same` | framework/base/third/md5.cpp:89 | the rewritten F agrees with section 3.4 of RFC 1321 on the lower halves |
| `Md5Words.F2Same` | framework/base/third/md5.cpp:110 | the rewritten G agrees with section 3.4 of RFC 1321 on the lower halves |
| `Md5Words.OperandsStep` | framework/base/third/md5.cpp:79-82 | one operation of P keeps the four words congruent to the registers of the standard, in the rotated order of its arguments |
| `Md5Words.Round1` | framework/base/third/md5.cpp:89-106 | after the sixteen operations of round 1 the words are congruent to the registers after sixteen operations of RFC 1321 |
| `Md5Words.Round2` | framework/base/third/md5.cpp:110-127 | the same for round 2 |
| `Md5Words.Round3` | framework/base/third/md5.cpp:131-148 | the same for round 3 |
| `Md5Words.Round4` | framework/base/third/md5.cpp:152-169 | the same for round 4 |
| `Md5Words.GetSame` | framework/base/third/md5.cpp:28-34 | a word read from four bytes is the little-endian word of the standard |
| `Md5Words.PutSame` | framework/base/third/md5.cpp:36-42 | the bytes written depend on the lower half only and are those of the standard |
| `Md5Reference.FoldParts` | framework/base/third/md5.cpp:207-212 | compressing a message in two parts, the first of whole blocks, is compressing it at once |
| `Md5Reference.PaddedFits` | framework/base/third/md5.cpp:226-245 | the padded message is always a whole number of blocks of 64 bytes |
| `Md5.CountKept` | framework/base/third/md5.cpp:188-192 | the byte count in two words stays right over a call if and only if the carry that is due is none or, modulo 2^29, one |
| `Md5.ShortCallsCount` | framework/base/third/md5.cpp:188-192 | calls with up to 2^32 bytes never lose the count |
| `Md5.LongCallMiscounts` | framework/base/third/md5.cpp:188-192 | one call with 2^33 bytes does |
| `Md5.LengthBytes` | framework/base/third/md5.cpp:232-237 | the eight bytes behind the padding are the count in bits, the low-order byte first, modulo 2^64 |
| `Md5.Context.Process` | framework/base/third/md5.cpp:56-177 | processing a block keeps the state congruent to the compression function of section 3.4 of RFC 1321 |
| `Md5.Context.Update` | framework/base/third/md5.cpp:179-216 | any sequence of updates leaves the state and partial block of the concatenated message, and the carry into the second counter as stated |
| `Md5.Context.Finish` | framework/base/third/md5.cpp:226-249 | however the message was split, the digest is that of RFC 1321, sections 3.1 to 3.5, if the count is right; in any case it is the compression of the message closed with the count held |
| `XmlNodes.Node.LinkEndChild` | framework/base/config/tinyxml.cpp:184-210 | the node becomes the last child and all links of the document agree; a node that is a child already leaves links that fit no list of children |
| `XmlNodes.Node.LinkLast` | framework/base/config/tinyxml.cpp:195-209 | the link assignments append to the sequence of children if and only if the node is not in it |
| `XmlNodes.LinkTwice` | framework/base/config/tinyxml.cpp:184-210 | linking the same node twice leaves links that no list of children has |
| `XmlNodes.Node.InsertBeforeChild` | framework/base/config/tinyxml.cpp:226-255 | a clone, with everything cloned below it, comes before a child, all links agree, other children keep their places; refused exactly for foreign children and documents |
| `XmlNodes.Node.InsertAfterChild` | framework/base/config/tinyxml.cpp:258-287 | the same behind a child |
| `XmlNodes.Node.ReplaceChild` | framework/base/config/tinyxml.cpp:290-315 | a clone with everything below it takes the place of a child, which goes with everything below it |
| `XmlNodes.Node.RemoveChild` | framework/base/config/tinyxml.cpp:318-338 | the child goes with everything below it, the others close up, all links agree |
| `XmlNodes.Node.FirstChildNamed` | framework/base/config/tinyxml.cpp:340-349 | following the next links finds the first child of that value, if there is one |
| `XmlNodes.Node.LastChildNamed` | framework/base/config/tinyxml.cpp:352-361 | following the prev links finds the last |
| `XmlNodes.OthersKept` | framework/base/config/tinyxml.cpp:184-338 | an edit of one list of children leaves the lists of all other nodes of the document in order |
| `XmlAttributeSet.AttributeSet.Add` | framework/base/config/tinyxml.cpp:1516-1528 | the attribute joins the ring behind the last one |
| `XmlAttributeSet.AttributeSet.Remove` | framework/base/config/tinyxml.cpp:1531-1547 | the attribute, if it is in the ring, leaves it and the ring closes |
| `XmlAttributeSet.AttributeSet.NextIs` | framework/base/config/tinyxml.cpp:1174-1201 | going on from an attribute meets the sentinel, or what is taken for it, exactly behind the last attribute or before one without name and value |
| `XmlText.EncodeString` | framework/base/config/tinyxml.cpp:51-132 | the loop writes the specified escapes and passes hexadecimal character references through |
| `XmlText.ReadEntity` | framework/base/config/tinyxmlparser.cpp:438-531 | the entity reader with its backward digit loops computes the specified characters and pointer |
| `XmlReferences.ReferenceMeans` | framework/base/config/tinyxmlparser.cpp:438-510 | a character reference is refused if and only if no semicolon follows or something that is no digit stands behind the last mark in front of it; otherwise it stands for the number of the digits there, read from left to right, as far as 32 bits go |
| `XmlReferences.DecimalReference` | framework/base/config/tinyxmlparser.cpp:478-500 | decimal digits below 2^32 stand for the code point of their value, encoded in UTF-8 or cut to a byte |
| `XmlReferences.HexReference` | framework/base/config/tinyxmlparser.cpp:452-476 | so do hexadecimal digits, of either case and any number |
| `XmlReferences.LetterA` | framework/base/config/tinyxmlparser.cpp:438-510 | the references to 65 in either form are the letter A |
| `XmlReferences.NamedEntities` | framework/base/config/tinyxmlparser.cpp:512-522 | the five names stand for their characters |
| `XmlReferences.OtherEntity` | framework/base/config/tinyxmlparser.cpp:524-530 | an ampersand that begins no name and no number is dropped |
| `XmlText.ReadText` | framework/base/config/tinyxmlparser.cpp:574-596 | the reader collects characters up to the quote as specified |
| `XmlReferences.RawRead` | framework/base/config/tinyxmlparser.cpp:574-596 | text with neither ampersand nor quote is read as it is, and without a closing quote the reader runs off the end |
| `XmlReferences.EncodedSafe` | framework/base/config/tinyxml.cpp:51-132 | text without anything like a hexadecimal reference is written without angle brackets, quotes and control characters |
| `XmlReferences.ReferencePassed` | framework/base/config/tinyxml.cpp:60-84 | what looks like a reference is written as it is, up to and with its semicolon |
| `XmlReferences.OpenReferencePassed` | framework/base/config/tinyxml.cpp:60-84 | and what has no semicolon as it is but for its last character |
| `XmlText.EscapeRead` | framework/base/config/tinyxml.h:332-366 | every byte but NUL, escaped and read again, is itself |
| `XmlText.TextRoundTrip` | framework/base/config/tinyxmlparser.cpp:574-596 | a text, encoded and read up to its quote, comes back with what followed it if and only if it nowhere contains an ampersand, a number sign and an x in a row; for all byte strings in legacy mode and all with whole sequences in UTF-8 mode |
| `XmlText.ReferenceLost` | framework/base/config/tinyxml.cpp:51-132 | the shortest text that does not come back is an ampersand, a number sign and an x |
| `XmlAttribute.Print` | framework/base/config/tinyxml.cpp:1214-1237 | the attribute is printed with the quotes its value calls for |
| `XmlAttribute.Parse` | framework/base/config/tinyxmlparser.cpp:1389-1463 | the parser reads name, equals sign and value as specified, failing where the code returns null |
| `XmlAttribute.AttributeRoundTrip` | framework/base/config/tinyxmlparser.cpp:1389-1463 | an attribute printed and parsed has its name and value again, and the pointer is right behind it, if and only if the value contains no such reference |
| `XmlAttribute.UnquotedValue` | framework/base/config/tinyxmlparser.cpp:1439-1460 | a value without quotes is taken as it is up to white space, a slash or the end of the tag |
| `XmlAttribute.QuoteInside` | framework/base/config/tinyxmlparser.cpp:1449-1455 | a quote in it makes the attribute fail |
| `XmlAttribute.QuotedValue` | framework/base/config/tinyxmlparser.cpp:1427-1438 | a quoted value with neither ampersand nor its quote is taken as it is |
| `XmlAttribute.SpacesIgnored` | framework/base/config/tinyxmlparser.cpp:1389-1422 | white space in front of the name and around the equals sign makes no difference |
| `XmlAttribute.NoName` | framework/base/config/tinyxmlparser.cpp:1404-1411 | what does not begin with a name fails |
| `XmlAttribute.NoEquals` | framework/base/config/tinyxmlparser.cpp:1412-1417 | a name with no equals sign behind it fails |
| `XmlAttribute.NameCharacters` | framework/base/config/tinyxmlparser.cpp:405-436 | the codes of the characters that may begin a name, and of those that may follow |
| `XmlAttribute.MarksSkipped` | framework/base/config/tinyxmlparser.cpp:311-350 | in UTF-8 the byte order mark and two non-characters pass for white space, in the other encoding they do not |
| `Utf8.ConvertUTF32ToUTF8` | framework/base/config/tinyxmlparser.cpp:88-126 | writing backwards fills exactly the bytes of the encoding and no others |
| `Utf8.EncodingDecodes` | framework/base/config/tinyxmlparser.cpp:88-126 | the bytes written for a code point below 2^21 decode to it by the bit patterns of section 3 of RFC 3629 |
| `Utf8.EncodingShortest` | framework/base/config/tinyxmlparser.cpp:88-126 | no sequence for the same code point is shorter, and none of that length is different |
| `Utf8.TableMatches` | framework/base/config/tinyxmlparser.cpp:66-85 | the table entry of the first byte is the number of bytes written if and only if the code point is below 0x140000, which covers all of RFC 3629 |
| `Utf8.TextWhole` | framework/base/config/tinyxmlparser.cpp:66-85 | every text of code points up to 0x10FFFF has whole sequences, as the round trip asks |
| `XmlLines.Normalize` | framework/base/config/tinyxml.cpp:1033-1064 | the span-copying loop computes the normalization of section 2.11 of XML 1.0 of what stands before the first NUL |
| `XmlLines.FixedPoints` | framework/base/config/tinyxml.cpp:1033-1064 | normalizing again changes nothing, and exactly the texts without carriage return stay as they are |
| `XmlLines.NoCarriageReturn` | framework/base/config/tinyxml.cpp:1033-1064 | the output has no carriage return |
| `XmlLines.TwoPasses` | framework/base/config/tinyxml.cpp:1033-1064 | it is what two passes give: dropping every carriage return before a line feed, then turning the others into line feeds |
| `ObjectPool.CreateConserves` | framework/base/util/allocator.h:109-128 | an object handed out was not out before; nothing is handed out exactly when the pool is at its maximum or memory is short; the front of an empty list is read exactly when the pool may still grow but its increment is zero |
| `ObjectPool.GrownMeans` | framework/base/util/allocator.h:145-173 | a pool grows unless it is at its maximum or memory is short, by so many objects or as many as are missing to the maximum, which go behind the free ones |
| `ObjectPool.LastReturned` | framework/base/util/allocator.h:109-142 | what was given back last is handed out first |
| `ObjectPool.MadeMeans` | framework/base/util/allocator.h:72-82 | a pool is made with room for its first objects at least, and with no growth of its own if no more was allowed |
| `ObjectPool.MaximumSet` | framework/base/util/allocator.h:95-103 | the maximum never falls below the current number |
| `ObjectPool.DestroyConserves` | framework/base/util/allocator.h:130-142 | giving an object back conserves if and only if it is one that is out |
| `ObjectPool.PoolConserves` | framework/base/util/allocator.h:72-173 | in every run of callers that return what they hold, free and handed-out objects are disjoint, are together exactly those constructed, and number the current count, at most the maximum |
| `ObjectPool.ObjectPoolAllocator.CreateObject` | framework/base/util/allocator.h:109-128 | the method does what the specification of Create says |
| `ServiceRequests.Correlated` | framework/netmgr/coder.cpp:90-164 | in every run before the counter wraps, numbers are distinct, no number is answered twice, and every wrapped reply carries what the decode of its number recorded |
| `ServiceRequests.WrappedExactly` | framework/netmgr/coder.cpp:133-164 | a reply is wrapped if and only if its request named a service or key, is not answered yet and the inner coder succeeds, and then for the right client; if the coder fails instead the encoding fails, and otherwise the message keeps its own number |
| `ServiceRequests.UnknownKeepsNumber` | framework/netmgr/coder.cpp:138-142 | in every run, also past the wrap, a message whose number was never given out is encoded with its own number and changes nothing else |
| `ServiceRequests.PendingExactly` | framework/netmgr/coder.cpp:62-88 | in every run, also past the wrap of the counter, a number is pending if and only if a decode came to it and no message of that number was encoded since |
| `ServiceRequests.RegistrationFails` | framework/netmgr/coder.cpp:62-72 | a registration fails if and only if a decode that lies a multiple of 2^32 decodes back has not been answered since |
| `ServiceRequests.WrapRefuses` | framework/netmgr/coder.cpp:62-72 | a run in which it does: 2^32 requests without a reply, and the next is refused |
| `ServiceRequests.AnsweredRightly` | framework/netmgr/coder.cpp:90-164 | over every run: a request that was registered, and is answered for the first time any time later, is answered under its client's serial number if and only if it names a service or key and the inner coder succeeds, or it names none and its serial number is the number the counter came to at its decode |
| `ServiceRequests.PlainMisnumbered` | framework/netmgr/coder.cpp:144-147 | a run in which it is not: the first request, without service and key and with serial number 7, is answered with number 1 |
| `ServiceRequests.ServiceFlagCoder.Encode` | framework/netmgr/coder.cpp:133-164 | the method removes the number and answers as specified |

## Left out

- Including files (`@include`): the scanner model has no result for a text in which the directive could start.
- The compressed automaton of `scanner.c` and its buffers: the scanner is modelled by its rules and the longest match among them.
- Tokens are handed to the parser as a sequence; that the text of a name token lives only until the next token is scanned is not modelled.
- ConfigFile.FileRoundTrip: floating-point numbers are the text they are printed as, of a form the scanner's rule for them matches; infinities and not-a-number are outside the model, and printing and reading doubles, and conversions between number types, are not modelled.
- Numbers beyond 64 bits are clamped in text as the C library does, in `atoi` as well, whose result the C standard leaves open.
- The tree of settings is a map from node numbers to nodes whose children are sequences; the chunked array behind such a sequence is proved separately (`ConfigBuffers.List`), and a missing list is not told from an empty one.
- Hooks, destructors, source lines, file names and error texts of settings.
- Allocation failure, except where a parameter says that memory is short (`ObjectPool`).
- Adding a setting with a null name to a group that has members dereferences a null pointer in the source; such calls are not commands of the runs in `ConfigRuns`.
- Sockets: a receive or send is a number of bytes or an error; timeouts, registration of handlers and closing are reduced to flags.
- Message bodies: decoding and encoding are arbitrary functions on bytes that may fail. JSON, Redis and JSON-RPC are not modelled, nor the method name registry.
- A frame that declares fewer bytes than its header has makes the source compute a negative length; the model reports it as an outcome of its own and goes no further.
- Waiting in a queue's `Get`: only the call that does not wait is modelled, and each queue operation is one step under its mutex.
- `Wakeup` counts notification bytes and workers; which worker sends which byte plays no part.
- ServiceRequests: the counter starts at a given value and operations are atomic, while the source leaves the counter uninitialised and never locks its guard.
- Md5.Context.Finish: the padding is passed as a value and the digest returned instead of written through a pointer; `md5_string` and the `MD5` class only format it.
- XmlNodes: the clone that `Clone` makes is given, with the nodes below it, as a parameter; deleted nodes are no longer among the nodes of the document, memory is not freed.
- XmlText: text outside attributes, where white space may be condensed, is not modelled; neither are row and column positions, whole documents, visitors and stream input.
- XmlAttribute: letters are those of the C locale.
- ObjectPool: the sum of current number and increment is not cut to the width of a word.
