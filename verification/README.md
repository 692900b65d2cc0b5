# OMiSCID: parser, framing, discovery and control, as a Dafny model

The project models six parts of the OMiSCID middleware and proves what they
keep, what they lose and when. Code that works in place is modelled in place:
classes and methods with loops, each proved against a step function or a
specification function about which the main results are stated as lemmas.

## The parts

**JSON** (`Json*.dfy`, `Utf8*.dfy`). `JsonMachine` is the character-by-character
parser as a step function: the transition table, the mode stack, the text
buffer, the escape decoder. `JsonGrammar` is an independent recursive grammar
with its own events and trees. `JsonSound` and `JsonComplete` prove the two
inclusions, `JsonTheorems` joins them. `JsonParser` is the parser object with
its growing buffer and its stack array. `JsonBuild` is tree building as a fold,
`JsonActions` the pointer-based builder on heap cells, `JsonRead` the function
`read`. `JsonPrint` is the printer, `JsonWriter` its object, and
`JsonRoundTrip` says exactly which trees survive printing and reading.
`JsonMeaning` states what reading comes to without the parser, and which error a
character gets; `JsonLayout` what a printed text looks like.

The grammar is section 2 of RFC 4627 with what the code does differently:
`1.` and `1.e5` are numbers, `0e5` is not; a blank text is accepted; any byte
from 0x20 on stands for itself in a string, and the printer never escapes, so a
string with a quote, a backslash or a control character does not come back as
it was. The asserts of the parser cannot fail: `NoAssertFails`
says so for every state that can be reached.

**BIP framing** (`Bip*.dfy`). `BipFrames` has headers and frames, `BipHeader`
how a header is recognised, `BipGrammar` which bytes those are, `BipScan` the reassembly loop as a function of the
bytes, `BipCuts` what cutting a stream may change, `BipDelivery` what is
delivered, `BipLink` the introduction handshake of two endpoints, `BipSocket`
the socket object with its two buffers, `BipEndToEnd` sending followed by
receiving.

A header is recognised by `sscanf`, which is modelled byte by byte after section
7.21.6.2 of ISO/IEC 9899:2011: it skips any white space, takes signs, a prefix
`0x` and short numbers, and stops at a NUL. So it takes more than what this code
writes, and 36 bytes may not settle what it says: later white space or digits can
complete a header. Where they do settle it, at each tag that the loop comes to, a
stream is handled in the same way however it is cut (`ChunksDoNotMatter`). The
frames this code sends are always like that (`FramesDelivered`); at any other tag
two pieces can be told from one (`CutsMatter`). A tag that is followed by more
than 36 bytes and no header makes the loop of `Receive` go round for ever:
`NoProgress` and `EndsExactly` say exactly when, and `StuckForEver` what it costs.
A header whose message would have 2^31 bytes or more is waited for in vain, in a
buffer that does not grow (`WaitsInVain`). Two kinds of length are outside the
model: from 2^31 - 1061 to 2^31 - 39, where rounding the size of the buffer
overflows a signed int, and from 2^32 - 38 on, once the size of the message, which
has wrapped to at most 37, seems to be there.

**Service discovery** (`DnsSd*.dfy`). Copies of the service list are counted,
and entries are only marked as gone while a copy is in use. The model keeps two
peculiarities of the code: an announcement is ignored while the old entry of
this name is still marked, and names are compared exactly on arrival but up to
case on departure. `AppearShown` and `VanishHidden` say exactly when each of
them shows, `HereExactly` and `FreedExactly` that no step does anything else.

**Removing cursor** (`MemoryList.dfy`). The singly linked list whose loop may
remove the current element.

**Answers and control** (`Answers*.dfy`, `Control*.dfy`). Queries matched to
answers by number, and the control lock with guarded variables, as step systems
in which any number of threads and peers interleave. A query is numbered in one
step, and looks at one waiter after the other in further steps, between which
other threads free theirs.

**Descriptions** (`KeyValue.dfy`, `ServiceDescription.dfy`,
`ServicePublisher.dfy`). The goto scanner for `key: value` lines, and the
properties a service publishes and a proxy reads. A full description does not
quite mean a complete one: a constant whose name, `=` and value make exactly
252 bytes is published but not exported, and nobody notices (`LostConstant`).

A key with a line break in it can cover the line that is meant;
`SearchIsExact` says for which keys that is so.

`Basics`, `Names` and `JsonTypes` hold what several parts share.

## Model

| member | source | states |
|---|---|---|
| `JsonTheorems.AcceptsExactly` | Json/JSON_parser.cpp:263-308 | at every nesting limit from 1 on, a text is accepted with the callback calls `es` if and only if it is blank and `es` is empty, or the grammar (section 2 of RFC 4627 with the deviations listed above) generates it within the limit and `es` is the pre-order of that derivation |
| `JsonSound.DocumentAccepted` | Json/JSON_parser.cpp:767-1100 | every text of the grammar is accepted, with exactly the calls of its derivation |
| `JsonSound.BlankAccepted` | Json/JSON_parser.cpp:1090-1100 | a blank text is accepted without any call, because `JSON_parser_done` allows the start state |
| `JsonSound.ValueRun` | Json/JSON_parser.cpp:767-1088 | a value inside a container, at any depth the limit leaves room for, is read and reported whatever the open containers and the calls made so far |
| `JsonSound.ContainerRun` | Json/JSON_parser.cpp:940-1007 | an array or object is opened, read and closed, and leaves the mode stack as it was |
| `JsonRuns.NumberRun` | Json/JSON_parser.cpp:836-872 | exactly the digits, the sign, the point and the exponent of a number are collected, and the type says whether it is a real; `1.` and `1.e5` are numbers |
| `JsonRuns.SettlingDelimiter` | Json/JSON_parser.cpp:941-985 | a number or a literal is only reported when its delimiter arrives, and the delimiter then does what it does after a value reported at once |
| `JsonRuns.ItemsRun` | Json/JSON_parser.cpp:696-758 | the characters, escapes and surrogate pairs of a string leave exactly the decoded bytes in the buffer |
| `JsonComplete.InvertDocument` | Json/JSON_parser.cpp:767-1100 | from any accepted text that is not blank a derivation is recovered whose text is that text and whose events are the calls made |
| `JsonComplete.InvertValue` | Json/JSON_parser.cpp:767-1088 | whatever is read where a value may stand is a value of the grammar within the limit, followed by what is read after it |
| `JsonComplete.InvertNumber` | Json/JSON_parser.cpp:836-872 | a text read from a digit or a minus sign on begins with a number of the grammar; `0e5` is not one |
| `JsonComplete.InvertItems` | Json/JSON_parser.cpp:622-758 | what is read inside a string is a sequence of plain characters, escapes, code units and surrogate pairs up to a quote |
| `JsonTheorems.NeverBack` | Json/JSON_parser.cpp:767-1088 | once the start state has been left it is never reached again |
| `JsonInvariant.StepInv` | Json/JSON_parser.cpp:767-1088 | the invariant that joins state, top mode, value type, escape flag, surrogate and buffer is kept by every character that is read |
| `JsonInvariant.RunInv` | Json/JSON_parser.cpp:767-1088 | the invariant holds after every text that is read |
| `JsonInvariant.AlwaysReady` | Json/JSON_parser.cpp:760-1088 | under the invariant every assert in front of an action holds, whatever the character |
| `JsonInvariant.NoAssertFails` | Json/JSON_parser.cpp:760-1088 | for every nesting limit, every text read so far and every next character, every assert in front of the action it takes holds |
| `JsonInvariant.DecodeInv` | Json/JSON_parser.cpp:627-650 | when the fourth digit of an escape arrives the buffer ends with `\u` and four hexadecimal digits, and decoding keeps the invariant |
| `JsonTypes.Wrap32` | Json/json_spirit_reader.cpp:433-435 | the conversion to `int` lands in the 32-bit range, and differs from the integer by a multiple of 2^32 |
| `JsonEscapes.EscapeReads` | Json/JSON_parser.cpp:627-694 | for every Unicode scalar value, reading its `\uXXXX` escape or its pair of escapes, with each digit in either case, appends exactly its UTF-8 encoding, which the reference decoder maps back to it |
| `JsonEscapes.EverySpelling` | Json/JSON_parser.cpp:639-650 | any four hexadecimal digits are one of these spellings of the code unit that they are read as |
| `JsonEscapes.LowAloneRefused` | Json/JSON_parser.cpp:657-694 | a low surrogate without a high one before it is refused |
| `JsonEscapes.HighNeedsLow` | Json/JSON_parser.cpp:654-694 | after a high surrogate the next six characters are read if and only if they are the escape of a low one, and then the bytes are those of the joined code point |
| `Utf8.EncodesExactly` | Json/JSON_parser.cpp:675-694 | for every integer and every byte sequence: the bytes are what the parser writes for a scalar value if and only if the decoder of section 4 of RFC 3629 reads that value from them |
| `Utf8.PairsJoin` | Json/JSON_parser.cpp:622-624 | joining surrogates is a bijection between pairs and the code points above 0xFFFF |
| `Utf8Bits.BitwiseTrail` | Json/JSON_parser.cpp:680-690 | masking and shifting by six bits are the remainders and quotients that the encoder is stated with |
| `Utf8Bits.BitwiseLead` | Json/JSON_parser.cpp:675-690 | setting the lead bits is the addition that the encoder is stated with, within the range of each length |
| `Utf8Bits.BitwisePair` | Json/JSON_parser.cpp:622-624 | the surrogate masks and the joining shift are range tests and arithmetic |
| `JsonParser.TextBuffer.Grow` | Json/JSON_parser.cpp:524-547 | the text moves to a buffer of twice the size and nothing of it is lost |
| `JsonParser.TextBuffer.ReserveFor` | Json/JSON_parser.cpp:549-559 | afterwards there is room for the characters and the NUL, and the text is the same |
| `JsonParser.TextBuffer.PushBack` | Json/JSON_parser.cpp:564-569 | the text gets one character more, in bounds |
| `JsonParser.TextBuffer.PopBack` | Json/JSON_parser.cpp:421-426 | the last characters are dropped |
| `JsonParser.TextBuffer.Clear` | Json/JSON_parser.cpp:415-419 | the text is empty |
| `JsonParser.ModeStack.Push` | Json/JSON_parser.cpp:364-397 | refused exactly at the nesting limit; otherwise the mode is on top, in bounds, for every depth from 1 to 127 |
| `JsonParser.ModeStack.Pop` | Json/JSON_parser.cpp:399-412 | succeeds exactly if the top is the expected mode, and never goes below the bottom |
| `JsonParser.Parser.constructor` | Json/JSON_parser.cpp:442-522 | the parser starts in the initial state of the step function; a depth of 0 counts as 1 |
| `JsonParser.Parser.AddEscapedChar` | Json/JSON_parser.cpp:696-737 | the backslash in the buffer is replaced by what the escape stands for |
| `JsonParser.Parser.AddToBuffer` | Json/JSON_parser.cpp:739-758 | refused exactly if the escape is unknown; the buffer grows as needed |
| `JsonParser.Parser.ParseParseBuffer` | Json/JSON_parser.cpp:581-620 | the pending value is reported and the buffer cleared |
| `JsonParser.Parser.TakeUnit` | Json/JSON_parser.cpp:627-650 | the four digits give the code unit, and they are dropped with the `\u` before them |
| `JsonParser.Parser.PushEncoded` | Json/JSON_parser.cpp:675-694 | the byte loop writes exactly the UTF-8 encoding |
| `JsonParser.Parser.DecodeUnicodeChar` | Json/JSON_parser.cpp:627-694 | succeeds exactly when the step function does, with the same buffer, surrogate and state |
| `JsonParser.Parser.Close` | Json/JSON_parser.cpp:952-983 | `}` and `]`: report, pop, settle; the error is set on an unbalanced bracket |
| `JsonParser.Parser.CloseEmptyObject` | Json/JSON_parser.cpp:940-950 | `}` right after `{` |
| `JsonParser.Parser.Open` | Json/JSON_parser.cpp:985-1007 | `{` and `[`: report, push within the limit |
| `JsonParser.Parser.EndString` | Json/JSON_parser.cpp:1009-1039 | a closing quote reports a key or a string, as the mode says |
| `JsonParser.Parser.Separate` | Json/JSON_parser.cpp:1041-1066 | a comma reports the value and, in an object, expects a key |
| `JsonParser.Parser.EndKey` | Json/JSON_parser.cpp:1068-1078 | a colon turns the key mode into the object mode |
| `JsonParser.Parser.Note` | Json/JSON_parser.cpp:831-898 | the actions that only record what begins; their asserts hold |
| `JsonParser.Parser.Perform` | Json/JSON_parser.cpp:815-1086 | each action does to the object what the step function says |
| `JsonParser.Parser.Char` | Json/JSON_parser.cpp:767-1088 | one call reads the character exactly if the step function does, makes the same callback calls, sets the same error, and keeps the object valid: no access out of bounds, for every character and every state |
| `JsonParser.Parser.DoneParsing` | Json/JSON_parser.cpp:1090-1100 | the end is accepted exactly in a settled or blank state with nothing open |
| `JsonBuild.ContainerBuilds` | Json/json_spirit_reader.cpp:166-225 | the events of a container, fed to the builder at any open spot of a tree, add exactly its tree there and leave everything else alone |
| `JsonBuild.DocumentBuilds` | Json/json_spirit_reader.cpp:166-225 | the events of any document build exactly its tree |
| `JsonCallbacks.StepTakes` | Json/json_spirit_reader.cpp:416-475 | the builder follows the parser: every call a character makes can be taken, and the open containers keep matching the mode stack |
| `JsonCallbacks.NeverStuck` | Json/json_spirit_reader.cpp:123-225 | on every text, accepted or refused, no callback dereferences a null pointer, fails an assert on the kind of the container or pops an empty stack |
| `JsonActions.GrowLast` | Json/json_spirit_reader.cpp:166-176 | appending to the innermost open container is `push_back` at the end of the path of last children |
| `JsonActions.OpenLast` | Json/json_spirit_reader.cpp:178-204 | a container begun inside another is an empty last child of it |
| `JsonActions.FoldLast` | Json/json_spirit_reader.cpp:206-214 | leaving a container changes no tree: the open last child becomes a finished one |
| `JsonActions.Cell.Push` | Json/json_spirit_reader.cpp:166-176 | `push_back` of a finished value, even when it moves the elements to other memory, appends its tree and keeps the container open |
| `JsonActions.Cell.PushOpen` | Json/json_spirit_reader.cpp:178-204 | the pointer taken after `push_back` is the open last child |
| `JsonActions.Cell.Copy` | Json/json_spirit_reader.cpp:166-176 | the copy constructor yields the same tree in fresh memory |
| `JsonActions.SemanticActions.AddLeaf` | Json/json_spirit_reader.cpp:166-176 | the pointer-based builder does what the fold says, and every pointer saved on the stack still is the open container it was taken for |
| `JsonActions.SemanticActions.BeginCompound` | Json/json_spirit_reader.cpp:178-204 | the same for the beginning of a container |
| `JsonActions.SemanticActions.EndCompound` | Json/json_spirit_reader.cpp:206-214 | the same for the end of a container |
| `JsonActions.SemanticActions.Callback` | Json/json_spirit_reader.cpp:416-475 | the same for every call of the parser |
| `JsonActions.SemanticActions.Feed` | Json/json_spirit_reader.cpp:416-475 | the same for a sequence of calls; the value is not touched before something begins |
| `JsonActions.SemanticActions.AtRoot` | Json/json_spirit_reader.cpp:166-214 | back at the outermost level, the value in memory is the tree of the fold, finished all the way down |
| `JsonRead.Take` | Json/json_spirit_reader.cpp:389-398 | one round of the loop of `read`: parser and builder have taken one character more, or the step function refuses it |
| `JsonRead.ReadText` | Json/json_spirit_reader.cpp:376-408 | `read` succeeds exactly when the pure reading does; the value then holds the tree, or is untouched for a blank text |
| `JsonRoundTrip.ReadDocument` | Json/json_spirit_reader.cpp:376-408 | reading a text of the grammar nested at most 127 deep gives the tree of its derivation |
| `JsonRoundTrip.ReadInverts` | Json/json_spirit_reader.cpp:376-408 | whatever is read as a value is the tree of a derivation of the text up to its first NUL |
| `JsonRoundTrip.AcceptedPositive` | Json/json_spirit_reader.cpp:389-393 | a text that is read to its end has no NUL in it |
| `JsonMeaning.ReadExactly` | Json/json_spirit_reader.cpp:376-408 | up to its first NUL, a text is read as a value exactly if it is a document of the grammar nested at most 127 deep, and leaves the value untouched exactly if it is nothing but blanks, tabs and line breaks |
| `JsonMeaning.IntegersRead` | Json/json_spirit_reader.cpp:433-435 | an integer is read as the sum of its digits times the powers of ten of their places, with its sign, modulo 2^32 |
| `JsonMeaning.IntegersPrinted` | Json/json_spirit_writer.cpp:43-43 | an integer is printed as the digits of its amount, without leading zeros, behind a minus sign if it is negative |
| `JsonMeaning.RefusedBetween` | Json/JSON_parser.cpp:321-362 | which error a character gets where a key, a colon or the text itself is to begin |
| `JsonMeaning.RefusedBracket` | Json/JSON_parser.cpp:940-983 | a bracket that closes nothing or the wrong container is unbalanced, after the pending value has been reported |
| `JsonMeaning.RefusedDepth` | Json/JSON_parser.cpp:985-1007 | one container too many is reported and then refused for its depth |
| `JsonMeaning.RefusedEscape` | Json/JSON_parser.cpp:739-750 | a backslash before a character that makes no escape |
| `JsonMeaning.RefusedInside` | Json/JSON_parser.cpp:321-362 | which error breaks off a literal, a number, an escape or an array |
| `JsonPrint.DeriveText` | Json/json_spirit_writer.cpp:35-118 | the printed text, compact or pretty, is the text of a derivation |
| `JsonPrint.DeriveTree` | Json/json_spirit_writer.cpp:35-118 | for a tree of plain strings and 32-bit integers that derivation is well formed and stands for the tree |
| `JsonPrint.IntRoundTrip` | Json/json_spirit_writer.cpp:43-43 | printing an integer and scanning it gives the integer |
| `JsonLayout.PrintedIs` | Json/json_spirit_writer.cpp:35-118 | the printed text, character for character: the tokens of the tree, and in pretty text each element on a line of its own, four blanks further in for each open container, and a blank on both sides of a colon |
| `JsonRoundTrip.PlainReadsBack` | Json/json_spirit_writer.cpp:126-134 | a printed array or object of plain strings, nested at most 127 deep, reads back as itself |
| `JsonRoundTrip.ReadsBackOnlyPlain` | Json/json_spirit_writer.cpp:65-68 | if a printed tree reads back as itself, no string in it needed an escape: any other derivation of the text is too heavy in backslashes and `u`s |
| `JsonRoundTrip.ReadsBackExactly` | Json/json_spirit_writer.cpp:35-118 | both directions: a tree of bytes and 32-bit integers reads back, from the compact and from the pretty text, if and only if it is an array or object, every string and key is plain, and it is nested at most 127 deep |
| `JsonWriter.Generator.constructor` | Json/json_spirit_writer.cpp:25-31 | the object writes the printed text at the end of the stream |
| `JsonWriter.Generator.Output` | Json/json_spirit_writer.cpp:35-48 | each kind of value appends its text, and the indentation level is restored |
| `JsonWriter.Generator.OutputPair` | Json/json_spirit_writer.cpp:60-63 | a pair appends its key, colon and value |
| `JsonWriter.Generator.OutputArray` | Json/json_spirit_writer.cpp:76-98 | the loop over an array puts commas between the elements and none after the last |
| `JsonWriter.Generator.OutputObject` | Json/json_spirit_writer.cpp:76-98 | the same over the members of an object |
| `JsonWriter.Generator.IndentHere` | Json/json_spirit_writer.cpp:100-108 | four blanks for each level, in pretty text only |
| `BipFrames.HexRoundTrip` | Com/MsgSocket.cpp:68-70 | a number printed with `%08x` is read back |
| `BipFrames.HexPlaces` | Com/MsgSocket.cpp:68-70 | each of the digits of `%08x`, in lower case, is the digit of its place in base 16 |
| `BipFrames.HeaderLayout` | Com/MsgSocket.cpp:68-70 | a header is the tag, the peer id, the message id and the length in eight digits each, and a line end |
| `BipFrames.WireLayout` | Com/MsgSocket.cpp:266-361 | a frame is its header, its payload and a line end |
| `BipHeader.HeaderRead` | Com/MsgSocket.cpp:1252-1271 | `sscanf` comes to its end within the 36 bytes of a printed header |
| `BipHeader.HeaderRoundTrip` | Com/MsgSocket.cpp:1252-1271 | a printed header is recognised with its three numbers, whatever follows it |
| `BipHeader.DecidedExactly` | Com/MsgSocket.cpp:1252-1271 | bytes to come cannot change what `GoodBeginning` says if and only if `sscanf` has come to its end; until then some bytes do change it |
| `BipHeader.GoodBeginning` | Com/MsgSocket.cpp:1252-1271 | `sscanf` with its white space, signs, `0x` and field width: a header that is recognised begins with the tag, and its numbers are 32-bit words |
| `BipGrammar.HeadersExactly` | Com/MsgSocket.cpp:1252-1271 | 36 bytes or more are taken for a header, with these three numbers, if and only if they are the tag and three numbers as `sscanf` spells them: white space, a sign, `0x` and hexadecimal digits, at most eight characters, each number as long as it can be |
| `BipScan.MoveToMessage` | Com/MsgSocket.cpp:1273-1292 | the search stops at the first tag, or 36 bytes before the end, and passes no tag |
| `BipScan.NoProgress` | Com/MsgSocket.cpp:849-864 | a round of the loop makes no progress if and only if more than 36 bytes are there that begin with a tag from which `sscanf` does not get three numbers |
| `BipScan.FirmRound` | Com/MsgSocket.cpp:662-865 | where the 36 bytes of a header settle what happens, a round that does not wait has found the end of the third number |
| `BipScan.IterateMore` | Com/MsgSocket.cpp:662-865 | a round that does not wait does the same when more bytes lie behind, if the 36 bytes settle what happens or no number of bytes makes a header |
| `BipScan.SkipGarbage` | Com/MsgSocket.cpp:849-871 | bytes before the last 36 in which no tag starts do not matter |
| `BipScan.EndsExactly` | Com/MsgSocket.cpp:662-872 | for all bytes: the loop goes round for ever if and only if it comes to a tag that has more than 36 bytes behind it but no header; it comes to a length outside the model if and only if it comes to a header for which the size of the larger buffer leaves the signed ints, or for which the size of the message wraps at 32 bits and seems to be there; otherwise, and only then, it ends and waits for more |
| `BipScan.ParsableEnds` | Com/MsgSocket.cpp:662-872 | the loop ends if each `BIP/1.0` in the bytes, wherever it lies, begins a header whose length is not one of those |
| `BipScan.ScanMore` | Com/MsgSocket.cpp:623-872 | one pass over everything is a pass over the first bytes and one over what it kept with the rest, if each tag the pass comes to is settled by its 36 bytes or never begins a header |
| `BipScan.ChunksDoNotMatter` | Com/MsgSocket.cpp:623-872 | under that condition on the bytes, however they are cut into pieces, what was reported and what is kept are what one pass over them gives, including the passes that never end |
| `BipCuts.CutsMatter` | Com/MsgSocket.cpp:849-872 | the condition is needed: after any 36 bytes that do not settle what happens, bytes can follow that are handled differently in two pieces than in one |
| `BipDelivery.FrameRound` | Com/MsgSocket.cpp:662-790 | a complete frame is reported with its peer id, message id and payload, and exactly its bytes are consumed |
| `BipDelivery.PartialRound` | Com/MsgSocket.cpp:662-872 | the unfinished beginning of a frame is kept as it is |
| `BipDelivery.FrameAfterGarbage` | Com/MsgSocket.cpp:849-871 | garbage without a tag in front of a frame loses nothing of the frame |
| `BipDelivery.TailKept` | Com/MsgSocket.cpp:849-872 | garbage before an unfinished frame: the frame is kept, and exactly as much of the garbage before it as makes 36 bytes |
| `BipDelivery.FramesDelivered` | Com/MsgSocket.cpp:623-872 | any number of frames with garbage between them, and a beginning of another, in any chunks: exactly the frames are reported, in order, and exactly the unfinished frame is kept, with as much of the garbage before it as makes 36 bytes |
| `BipDelivery.StuckForEver` | Com/MsgSocket.cpp:849-872 | a tag that never looks like a header, however much of what follows is there, makes the loop go round for ever, after exactly the frames before it |
| `BipDelivery.WaitsInVain` | Com/MsgSocket.cpp:670-693 | behind a header whose message size is negative as a signed int nothing is reported any more: exactly the frames before it are, and everything from it on is kept, for as long as a signed int can count it |
| `BipDelivery.NothingInvented` | Com/MsgSocket.cpp:662-872 | whatever the bytes, every report is a message that lies in them behind a header that `sscanf` reads, with its end where one is checked, in this order and without overlap |
| `BipDelivery.EndMissing` | Com/MsgSocket.cpp:694-847 | a message without its end is dropped with its header, and the search goes on at its payload; an introduction is taken all the same, with the two bytes behind it |
| `BipLink.ThrownStays` | Com/MsgSocket.cpp:485-567 | a refused introduction ends the reports |
| `BipLink.SendLinkKeeps` | Com/MsgSocket.cpp:485-567 | introducing keeps that the introduction carries the number 0 and is the first message, and never fails in such a run |
| `BipLink.Introduces` | Com/MsgSocket.cpp:485-543 | an introduction that fits is sent unasked, with the number 0, if none has been sent; it is refused if other messages were sent before, and otherwise nothing happens |
| `BipLink.TakesAll` | Com/MsgSocket.cpp:694-768 | what a chunk does to an endpoint: everything is heard in order, an introduction in it is answered exactly if the own one is still due and fits, the peer is that of the last introduction, and the whole is refused exactly if an answer comes too late |
| `BipLink.TurnDone` | Com/MsgSocket.cpp:485-1192 | what each turn of a run does to the messages sent and heard, and that the other side keeps what it has |
| `BipLink.IntroducesItself` | Com/MsgSocket.cpp:485-543 | in every run a side that introduces itself has sent, as its first message, the introduction, if it fits |
| `BipLink.LinkTaken` | Com/MsgSocket.cpp:694-768 | taking the introduction of the other side answers with an own one unless it is sent already |
| `BipLink.RunKeeps` | Com/MsgSocket.cpp:485-1192 | every interleaving of introducing, sending and receiving keeps the numbering of both sides |
| `BipLink.IntroducedOnceAndFirst` | Com/MsgSocket.cpp:485-543 | in every run of two endpoints whose sends follow their own introduction, the introduction of a side is the first message it sends, is sent at most once, and has been sent, if it fits, as soon as that of the other side is taken; numbers are consecutive until they wrap; Connected is reported once, and before any message |
| `BipSocket.PrepareBufferForBip` | Com/MsgSocket.cpp:266-296 | the buffer holds the payload between a header without its numbers and the end tag; -1 and nothing written if it is too long |
| `BipSocket.PrepareHeader` | Com/MsgSocket.cpp:266-296 | the same for the header alone |
| `BipSocket.PrepareBufferFromParts` | Com/MsgSocket.cpp:298-342 | the parts are joined into the same message |
| `BipSocket.WriteHeaderForBip` | Com/MsgSocket.cpp:345-361 | the two numbers complete the header, and the blank that the NUL overwrote is put back; nothing behind the header changes |
| `BipSocket.Complete` | Com/MsgSocket.cpp:345-361 | a prepared buffer becomes exactly the frame on the wire, and can be used again |
| `BipSocket.MsgSocket.SetMaxMessageSizeForTCP` | Com/MsgSocket.cpp:1532-1546 | whatever is asked for, the longest TCP message stays shorter than the send buffer and the longest payload leaves room for header and end in it, as every sending method needs (`Sending` is kept) |
| `BipSocket.MsgSocket.Send` | Com/MsgSocket.cpp:915-1016 | short and long payloads put the same frame on the wire and use up one number; the result leaves out header and end for a short one |
| `BipSocket.MsgSocket.SendCuttedMsg` | Com/MsgSocket.cpp:1018-1132 | the parts put the same frame on the wire as their concatenation; only an empty list of parts is refused |
| `BipSocket.MsgSocket.SendPreparedBuffer` | Com/MsgSocket.cpp:1134-1192 | a prepared buffer puts the same frame on the wire with the next number; too long a one is an exception that changes nothing |
| `BipSocket.MsgSocket.SendInPieces` | Com/MsgSocket.cpp:923-965 | header, payload and end sent one after the other are the same frame |
| `BipSocket.MsgSocket.SendSyncLinkMsg` | Com/MsgSocket.cpp:485-567 | an introduction that fits and has not been sent is on the wire afterwards as frame 0, asked for or not, and uses up that number; after other messages it is an exception, and otherwise nothing is sent |
| `BipSocket.MsgSocket.Search` | Com/MsgSocket.cpp:1273-1292 | the loop of `MoveToMessage` |
| `BipSocket.MsgSocket.Grow` | Com/MsgSocket.cpp:673-692 | a buffer grown to whole kilobytes, less than one more than the message to come needs, within a signed int, and the bytes kept are at its front |
| `BipSocket.GrowthFits` | Com/MsgSocket.cpp:670-677 | in front of every incomplete message the size that the buffer is to have is negative, and the buffer left as it is, or the rounded size stays within a signed int |
| `BipSocket.MsgSocket.Await` | Com/MsgSocket.cpp:670-693 | an incomplete message loses no byte, and at least one byte is free unless its size is negative as a signed int; then the buffer stays as it is |
| `BipSocket.MsgSocket.TakeMessage` | Com/MsgSocket.cpp:694-847 | a complete message is checked for its end, reported and consumed |
| `BipSocket.MsgSocket.Round` | Com/MsgSocket.cpp:665-865 | one round of the loop in place does what the pure round does, and gets shorter |
| `BipSocket.MsgSocket.Fill` | Com/MsgSocket.cpp:623-660 | the bytes received are put behind those that are there, and a NUL behind them, in bounds |
| `BipSocket.MsgSocket.Rounds` | Com/MsgSocket.cpp:664-865 | the loop of `Receive` ends, and with what the pure pass says, whenever it neither comes to a tag without a header nor to a length outside the model |
| `BipSocket.MsgSocket.Receive` | Com/MsgSocket.cpp:623-894 | a chunk read into the buffer is handled as the pure pass says and the bytes kept are what it keeps; at least one byte stays free, unless a message is awaited whose size is negative as a signed int: a buffer that is full leaves nothing to receive, and the peer counts as gone |
| `BipSocket.MsgSocket.Compact` | Com/MsgSocket.cpp:866-871 | what is left moves to the front unchanged |
| `BipEndToEnd.SentIsReceived` | Com/MsgSocket.cpp:623-1192 | whatever one side has put on the wire with any mix of the sending methods, in any chunks, the other side is told exactly, in order, and keeps nothing |
| `BipEndToEnd.WireIsStream` | Com/MsgSocket.cpp:915-1192 | the bytes on the wire are the frames sent and nothing between them |
| `DnsSdModel.NeverDangling` | ServiceControl/DnsSdProxy.cpp:157-320 | in every interleaving of starting, appearing, vanishing, copying, releasing and registering, no copy in use points to a freed entry, the counter is the number of copies, and an entry is freed if and only if it has left the list |
| `DnsSdModel.CleanupIsComplete` | ServiceControl/DnsSdProxy.cpp:157-183 | once no copy is in use, a cleanup leaves exactly the services that are here |
| `DnsSdModel.NextKeeps` | ServiceControl/DnsSdProxy.cpp:50-62 | every single step keeps the invariant |
| `DnsSdModel.CleanupKeeps` | ServiceControl/DnsSdProxy.cpp:157-183 | marked entries are freed only while no copy is counted |
| `DnsSdModel.AppearShown` | ServiceControl/DnsSdProxy.cpp:216-250 | after an announcement the next copy shows the service if and only if no entry of this very name was still marked as gone |
| `DnsSdModel.AnnouncementLost` | ServiceControl/DnsSdProxy.cpp:221-230 | a run in which a service that comes back while its old entry is marked is never shown |
| `DnsSdModel.VanishHidden` | ServiceControl/DnsSdProxy.cpp:251-286 | after a goodbye the next copy still shows the service if and only if the entry found up to case first has another spelling |
| `DnsSdModel.HereExactly` | ServiceControl/DnsSdProxy.cpp:157-320 | which services are here after any step: an announcement and a goodbye change nothing about any service but the one announced or the one entry found, and no other step changes anything |
| `DnsSdModel.ShownExactly` | ServiceControl/DnsSdProxy.cpp:216-320 | the same about what the next copy shows |
| `DnsSdModel.FreedExactly` | ServiceControl/DnsSdProxy.cpp:157-286 | a goodbye frees the one entry found, and that only while no copy is in use; any other step frees nothing, or all marked entries while no copy is in use |
| `DnsSdModel.CopiesExactly` | ServiceControl/DnsSdProxy.cpp:50-62 | a copy made is of the entries that are here, a copy released is gone, and no step changes any other copy |
| `DnsSdModel.InOrder` | ServiceControl/DnsSdProxy.cpp:216-320 | in every run the list, and so each copy, is in the order of arrival |
| `DnsSdProxy.DnsSdProxy.CleanupServicesList` | ServiceControl/DnsSdProxy.cpp:157-183 | the walk that removes while it iterates does what the model step says |
| `DnsSdProxy.DnsSdProxy.Sweep` | ServiceControl/DnsSdProxy.cpp:165-181 | exactly the marked entries are taken out and freed, the others stay in order |
| `DnsSdProxy.DnsSdProxy.Appears` | ServiceControl/DnsSdProxy.cpp:216-250 | `BrowseCollect` for a new service |
| `DnsSdProxy.DnsSdProxy.Vanishes` | ServiceControl/DnsSdProxy.cpp:251-286 | `BrowseCollect` for a service that is gone: the entry found up to case is removed at once, or only marked while copies are in use |
| `DnsSdProxy.DnsSdProxy.GetCurrentServicesList` | ServiceControl/DnsSdProxy.cpp:289-320 | a counted copy of the entries that are here, or NULL without an instance |
| `DnsSdProxy.DnsSdProxy.Copy` | ServiceControl/DnsSdProxy.cpp:289-320 | the copy points to the entries that are here, in order |
| `DnsSdProxy.DnsSdProxy.Delete` | ServiceControl/DnsSdProxy.cpp:57-62 | the destructor of a copy takes it off the count |
| `DnsSdProxy.DnsSdProxy.Tells` | ServiceControl/DnsSdProxy.cpp:322-416 | a client that asks for the current services is told of exactly those that are here, from a copy that is released again |
| `DnsSdProxy.DnsSdProxy.Alive` | ServiceControl/DnsSdProxy.cpp:289-320 | whoever holds a copy finds only entries that are still in the list |
| `MemoryList.WithoutKeepsOrder` | System/TrackingMemoryLeaks.cpp:435-568 | what is left without the chosen elements: each other one once, in the old order |
| `MemoryList.List.Add` | System/TrackingMemoryLeaks.cpp:357-386 | the new element is the last; chain, tail, count and cursor stay right |
| `MemoryList.List.AddHead` | System/TrackingMemoryLeaks.cpp:392-417 | the new element is the first; the cursor stays right if and only if it was not at the old first one |
| `MemoryList.List.First` | System/TrackingMemoryLeaks.cpp:435-440 | the cursor is at the first element |
| `MemoryList.List.Next` | System/TrackingMemoryLeaks.cpp:443-470 | after a removal the cursor stays, otherwise it moves on by one |
| `MemoryList.List.GetCurrent` | System/TrackingMemoryLeaks.cpp:493-499 | the element of the list that the cursor is at; an exception between a removal and the next step |
| `MemoryList.List.RemoveAndGoOn` | System/TrackingMemoryLeaks.cpp:443-552 | a removal followed by a step is at the element behind the removed one, and a mere step is one further |
| `MemoryList.List.RemoveCurrent` | System/TrackingMemoryLeaks.cpp:502-552 | the current element leaves an unbroken chain, the cursor is at the one behind it, and a second removal is an exception |
| `MemoryList.List.Remove` | System/TrackingMemoryLeaks.cpp:555-568 | the first element of this block goes, if there is one |
| `MemoryList.List.ExtractFirst` | System/TrackingMemoryLeaks.cpp:680-695 | the first element is handed out; the cursor stays right if and only if it was behind the second |
| `MemoryList.List.Empty` | System/TrackingMemoryLeaks.cpp:661-672 | every element is given back; a cursor at one of them is left dangling |
| `MemoryList.List.Sweep` | System/TrackingMemoryLeaks.cpp:435-552 | the loop First, NotAtEnd, Next that removes the chosen elements visits each element once, in order, and leaves exactly the others in order |
| `AnswersModel.OwnAnswerOnly` | ServiceControl/ControlClient.cpp:40-179 | in every interleaving of numbering a query, looking for its waiter one by one, answering, failing, looking and giving up, a query returns only an answer with its own number; there are at most as many waiters as queries ever had one or looked for one at once, and at most one less |
| `AnswersModel.AnswerTaken` | ServiceControl/ControlClient.cpp:193-230 | before the numbers wrap, an answer that is pushed while its query has a look left is the one that the query returns at its next look |
| `AnswersModel.LooksTwice` | ServiceControl/ControlClient.cpp:83-123 | in every run a query may look if and only if it has looked less than twice, gives up only after two looks, and fails in sending only before the first |
| `AnswersModel.SecondLook` | ServiceControl/ControlClient.cpp:83-123 | before the numbers wrap, a query that has looked once in vain returns an answer that is then pushed, at its second look |
| `AnswersModel.ReturnsOnlyBy` | ServiceControl/ControlClient.cpp:83-123 | a query is over if and only if it looks and its answer is there, which it returns, or it gives up or fails, and returns nothing; until then it keeps its waiter |
| `AnswersModel.ReturnFrees` | ServiceControl/ControlClient.cpp:68-123 | a query that is over has given its waiter back, emptied, and touched no other |
| `AnswersModel.NumbersRise` | ServiceControl/ControlClient.cpp:572-581 | the first query has the number 1, each next one the next number, and 0 comes after 2^32 - 1 |
| `AnswersModel.LateAnswerDropped` | ServiceControl/ControlClient.cpp:193-230 | before the numbers wrap, an answer to a query that is over, or that is numbered and has no waiter yet, changes nothing, so no reused waiter holds it |
| `AnswersModel.NextKeeps` | ServiceControl/ControlClient.cpp:531-570 | every step keeps that each query owns a waiter of its own that expects its number |
| `AnswersModel.AskAlone` | ServiceControl/ControlClient.cpp:146-179 | a walk over the waiters during which none is freed takes the first free one, or else a new one |
| `AnswersModel.FirstFree` | ServiceControl/ControlClient.cpp:146-179 | the first free waiter is taken |
| `AnswersModel.FirstExpecting` | ServiceControl/ControlClient.cpp:193-230 | the first waiter in use with this number gets the answer |
| `AnswersManager.AnswerWaiter.Use` | ServiceControl/ControlClient.cpp:40-66 | only a free waiter is taken, and it forgets an old answer |
| `AnswersManager.AnswerWaiter.Free` | ServiceControl/ControlClient.cpp:68-81 | the waiter is free and holds no answer |
| `AnswersManager.AnswerWaiter.Look` | ServiceControl/ControlClient.cpp:83-123 | an answer that is there is taken and the waiter given back |
| `AnswersManager.AnswersManager.CreateAnswerWaiter` | ServiceControl/ControlClient.cpp:146-179 | the loop over the waiters does what the walk of the model does while no waiter is freed |
| `AnswersManager.AnswersManager.PushAnswer` | ServiceControl/ControlClient.cpp:193-230 | the loop over the waiters does what the model step says |
| `ControlModel.PrunedFinds` | Com/TcpServer.cpp:474-512 | dropping dead connections while searching never makes a peer look gone |
| `ControlModel.PrunedExactly` | Com/TcpServer.cpp:474-512 | exactly the connections of the peer before its first live one are dropped |
| `ControlModel.ConnectionsAre` | Com/TcpServer.cpp:474-512 | who counts as connected after a connection has been made or lost |
| `ControlModel.LockGranted` | ServiceControl/ControlServer.cpp:730-795 | a lock is granted if and only if it is free, already held by this peer, or its holder is no longer connected; then the peer holds it, and otherwise it stays |
| `ControlModel.UnlockGranted` | ServiceControl/ControlServer.cpp:730-795 | an unlock is granted under the same condition; then the lock is free and the next peer that asks gets it, and otherwise it stays |
| `ControlModel.QueriesLeave` | ServiceControl/ControlServer.cpp:730-795 | lock queries change no variable and make nobody look connected or gone |
| `ControlModel.HolderKept` | ServiceControl/ControlServer.cpp:781-795 | while the holder is connected no step but its own unlocking takes the lock from it |
| `ControlModel.LockHolds` | ServiceControl/ControlServer.cpp:586-795 | along every run in which the holder stays connected and does not unlock, it keeps the lock and every lock, unlock and write of another peer is refused and changes no variable |
| `ControlModel.VariableKept` | ServiceControl/VariableAttribute.cpp:125-160 | in a running server no step changes a constant, and no remote write changes a variable that is not open for writing |
| `ControlModel.ConstantsAreConstant` | ServiceControl/VariableAttribute.cpp:330-346 | no sequence of steps of a running server changes a constant |
| `ControlModel.WriteTakesEffect` | ServiceControl/ControlServer.cpp:586-646 | a remote write is granted if and only if the writer may use the server and the variable is open for writing, and takes effect if moreover every listener agrees; no other variable changes, and the lock only if its holder is gone |
| `ControlModel.OwnWriteTakesEffect` | ServiceControl/VariableAttribute.cpp:125-160 | the service itself may change any variable but a constant of a running server, if every listener agrees; nothing else changes |
| `ControlModel.UnknownIsRefused` | ServiceControl/ControlServer.cpp:586-646 | a write to an unknown variable changes nothing at all |
| `ControlServer.TcpServer.FindClientFromId` | Com/TcpServer.cpp:474-512 | finds a live connection of this peer, or else of its service, exactly if there is one; dead connections of the peer before it are dropped |
| `ControlServer.TcpServer.IsStillConnected` | Com/TcpServer.cpp:583-591 | says whether a live connection of the service is left |
| `ControlServer.VariableAttribute.SetValue` | ServiceControl/VariableAttribute.cpp:125-160 | the value changes only if it may and every listener agrees, and all are told of a change |
| `ControlServer.ControlServer.RefreshLock` | ServiceControl/ControlServer.cpp:787-795 | the lock of a peer that is gone is dropped |
| `ControlServer.ControlServer.LockOk` | ServiceControl/ControlServer.cpp:781-785 | whether the peer may use the server after that |
| `ControlServer.ControlServer.ProcessLockQuery` | ServiceControl/ControlServer.cpp:730-761 | does what the model step says, and answers with the holder: this peer after a granted lock, nobody after a granted unlock, and the old one otherwise |
| `ControlServer.ControlServer.ProcessVariableQuery` | ServiceControl/ControlServer.cpp:586-646 | does what the model step says |
| `KeyValue.ValueFromKey` | Com/ComTools.cpp:63-151 | the goto scanner terminates, stays in bounds and returns the value on the first line that begins with the key and a colon, or nothing, for every key that cannot cover its own line, such as one without a line break; for every key it is the line-by-line search |
| `KeyValue.LookupIsFirst` | Com/ComTools.cpp:63-151 | for such a key the line-by-line search finds the first such line of every text |
| `KeyValue.SearchIsExact` | Com/ComTools.cpp:70-89 | the search is right for every text if and only if the key does not begin again behind one of its line breaks up to its end, with no colon next in it |
| `KeyValue.HiddenText` | Com/ComTools.cpp:70-89 | for every other key a text whose line with the key is missed |
| `KeyValue.AtLineStart` | Com/ComTools.cpp:70-89 | goes past a key and its colon, or past the key alone, which is not looked at again |
| `KeyValue.DataReadBack` | Com/ComTools.cpp:91-129 | a value written behind the colon and any number of blanks is read back if and only if it does not begin with a blank and has no end of line after its first character |
| `KeyValue.EmptyValueTakesNextLine` | Com/ComTools.cpp:91-129 | the first character of a value is taken unconditionally: an empty value takes the next line |
| `KeyValue.EatLine` | Com/ComTools.cpp:131-147 | goes to the start of the next line, if there is one |
| `KeyValue.EatSpaces` | Com/ComTools.cpp:91-109 | skips blanks, then reads the value |
| `KeyValue.EatData` | Com/ComTools.cpp:111-129 | reads up to the end of the line |
| `ServiceDescription.FullDescription` | ServiceControl/ServiceProxy.cpp:61-222 | a proxy takes a description for full if and only if the record was never too long and every exported property can be read; then each variable and typed connector but the peer id is known with its access, constant value, kind and port if and only if its property was short enough to be exported, and nothing else is known |
| `ServiceDescription.PublishedIs` | ServiceControl/ControlServer.cpp:203-331 | the first property says whether the record became too long; if not, exactly the entries but the peer id are published |
| `ServiceDescription.FirstTooLong` | ServiceControl/ControlServer.cpp:242-250 | of any entries with different names, exactly those before the first one that no longer fits the record are published |
| `ServiceDescription.PartPublished` | ServiceControl/ControlServer.cpp:203-331 | if the record became too long, exactly the entries before that one are published, but the peer id, behind a property that says `part` |
| `ServiceDescription.PutExactly` | ServiceControl/ControlServer.cpp:242-247 | the assignment to a property replaces the first one of this name up to case in its place, or adds one behind the others, and undefining takes it out |
| `ServiceDescription.VariableFormats` | ServiceControl/ControlServer.cpp:225-242 | the letters in front: a constant `me` is published as `c/me`, other variables as `r` or `w` |
| `ServiceDescription.ConnectorFormats` | ServiceControl/ControlServer.cpp:261-331 | an input, output or both at a port is published as `i/80`, `o/8` or `d/12` |
| `ServiceDescription.VariableReadExactly` | ServiceControl/ServiceProxy.cpp:61-222 | which properties are read as which variable |
| `ServiceDescription.ConnectorReadExactly` | ServiceControl/ServiceProxy.cpp:61-222 | which properties are read as which connector: a digit must stand behind the slash, and what follows the digits does not matter |
| `ServiceDescription.KnowsDeclared` | ServiceControl/ServiceProxy.cpp:61-222 | reading many properties knows exactly the variables and connectors that single ones declare |
| `Names.SameLetters` | ServiceControl/DnsSdProxy.cpp:251-286 | names agree up to case if they do letter by letter, as the C locale pairs the letters |
| `ServiceDescription.VariableRead` | ServiceControl/ServiceProxy.cpp:61-222 | a variable is read with its access, and its value if it is a constant; an empty or overlong constant cannot be read |
| `ServiceDescription.ConnectorRead` | ServiceControl/ServiceProxy.cpp:61-222 | a connector is read with its kind and port exactly for ports from 1 to 65534 |
| `ServiceDescription.ConstantLimits` | ServiceControl/ControlServer.cpp:225-242 | the property of a constant fits the 255 bytes of section 6.1 of RFC 6763 exactly for names up to 253 bytes, and is left out of the record exactly if name, `=` and value make 252 bytes or the name alone has 252 or more |
| `ServiceDescription.LostConstant` | ServiceControl/ControlServer.cpp:225-242 | a constant that is lost although the description counts as full |
| `ServiceDescription.DecimalRead` | ServiceControl/ServiceProxy.cpp:61-222 | a port printed in decimal is read back |
| `ServicePublisher.ServiceProperties.FindProperty` | ServiceControl/ControlServer.cpp:242-242 | the search of `ServiceProperties::Find`: the first property of this name up to case |
| `ServicePublisher.ServiceProperties.Set` | ServiceControl/ControlServer.cpp:242-242 | `ServiceProperties::operator[]` and the assignment to it: assigns to the property of this name, or adds one, and keeps the length of the record |
| `ServicePublisher.ServiceProperties.Remove` | ServiceControl/ControlServer.cpp:247-247 | `ServiceProperties::Undefine`: takes the property out and keeps the length of the record |
| `ServicePublisher.ServiceProperties.NotifyChanges` | ServiceControl/ControlServer.cpp:243-243 | the length that `TxtRecordIsFull` compares: the length of the record is that of its properties |
| `ServicePublisher.ServiceProperties.AddEntry` | ServiceControl/ControlServer.cpp:242-250 | an entry that makes the record too long is taken back and the description becomes partial |
| `ServicePublisher.Publish` | ServiceControl/ControlServer.cpp:203-331 | the loops of `StartServer`, which stop when the record is full, publish what the model says |
| `ServicePublisher.ReadProperties` | ServiceControl/ServiceProxy.cpp:61-222 | the loop of the constructor reads what the model says |

## Left out

- JSON comments and the table rows that only exist with comments on; `read` switches them off.
- JsonParser.Parser.constructor: depths of 128 and more and the unbounded depth, for which `push` writes behind its array before it grows; the step function, the grammar and their theorem cover every depth.
- The decimal point of the locale, which is taken to be `.`, and `sscanf` outside the range of `long`: an integer event carries the number that is written, and is then wrapped to 32 bits.
- Real numbers keep the text they were written with: the conversion to floating point and the printing with default precision are not part of this model, so trees with reals are not in the round trip.
- JsonRead.ReadText: what is left in the value after a refused text is not stated, only that it is refused.
- The parser structure is split into a text buffer, a mode stack and the rest; failing allocation, the custom allocator and the manual handling of floats are left out, and so is the Boost grammar.
- JsonActions.Cell.Push: a vector of values either stays in place or moves to fresh copies of all its elements; which of the two happens is left open.
- BipHeader.GoodBeginning: the conversions of `sscanf` are those of the C standard in its default locale; a `0x` without a digit behind it is no number there, where some libraries read it as 0.
- BipSocket.MsgSocket.Receive: a pass that never ends, or that comes to one of the lengths outside the model, has no result to speak of, so the method asks that the loop comes to neither (`Passable`); `EndsExactly` shows that this is when the loop ends and waits.
- Socket errors, partial writes, callbacks that throw or disconnect, and the exchange over UDP.
- BipLink.IntroducedOnceAndFirst: sending before the own introduction is excluded, as there the code throws; the run is reliable and in order, as TCP is.
- The destructor of the proxy instance, which frees entries whatever copies are in use, the notifications to clients of arrivals and departures, and clients that call back into the proxy.
- MemoryList.List.Empty: freed memory is known only as what has left the list; allocation failure, the guard bytes around a block and the mutex are left out.
- AnswersModel.OwnAnswerOnly: taking a number is one step, although the code does not lock it; a push is one step, as no waiter begins to expect its answer while the list is locked; sending without waiting for an answer is not modelled, nor the NULL waiter that a failed send would then free.
- ControlModel.LockHolds: the mask of a service is a parameter; subscriptions, notifications over the network, XML and the path `SetValueFromControl`, which skips the vote of the listeners, are left out.
- ServiceDescription.FullDescription: names that agree up to case, which `AddVariable` and `AddInOutput` refuse, and a variable or connector named `desc` are excluded; names of more than 254 characters, which a property does not take, and more than 1024 properties are not modelled; connectors of unknown kind are not published.
- ServicePublisher.ServiceProperties.Remove: the bytes of a dropped property behind the end of the exported record, and the decoding of the record by the DNS-SD library.
- KeyValue.ValueFromKey: for a key that can cover its own line only the line-by-line search is stated, since the first line with such a key may be missed.
- Peer ids as text, the counters, the serialisation of messages over JSON fields, filters, string replacement and the configuration layers would only add easy members.
- Sockets, threads, time, locks and DNS itself: regions under a lock are steps, everything else is left to the order in which steps happen.
