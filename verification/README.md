# Verified model of QuadFC and QuadGS

QuadFC is flight-controller firmware; QuadGS is the ground station that talks to it. This project
models the parts of both that carry state and data and proves what they promise, for all inputs
and all runs.

**Framing and persistence.** Parameter messages are serialized (`Serialization`, `ParamFc`), given
a CRC-CCITT checksum with polynomial 0x1021 and start value 0xFFFF (`Crc16`, `Crc16Errors`),
octet-stuffed as in section 4.2 of RFC 1662 (`SlipFraming`) by `Slip_Packetize` (`SlipPacket`),
written to memory by the parameter master and read back one octet at a time through a resumable
parser (`SlipParser`, over the ring of `CharCircularBuffer`), which delivers frames and nothing
else (`SlipReception`). `ParamStore` holds the layout in
memory and the save and load functions, `ParamMasterHandler` the object that carries them out,
`ParamStoreFailures` the two ways in which a load fails after a complete save.

**The parameter tree.** `ParamText` and `ParamTree` print and read nodes, `ParamWalk` reads a
printed walk back into the tree, `ParamDump` is the dump that stops when its buffer is full and
goes on later, `ParamHandler` the handler object that answers with such dumps and finds its part
of a set message. `ParamPath` reads set messages in every form of the format, `ParamDumpText` writes
out what a whole dump prints. `ParamDumpEnds` says when a series of dumps comes to an end, `ParamDumpStalls`
shows a tree whose dump never does, `ParamRestore` which dumps restore a tree. `ParamPersistence`
joins both halves: what a save collects is what a load gives back. `ParamSaveRun` is the save
protocol between master and handlers from the first request to the last frame in memory,
`ParamSaveLoop` the same on the objects, and `ParamSaveLoss` what a save that was broken off costs
the next one.

**Messages between tasks.** `EventMesh` is the subscription protocol as a state machine over
queues, `EventTypes` says who is subscribed to what after a run and whom a message then reaches,
`EventHandler` are the handler objects that run the protocol; `EventWait` is waiting for one type of
event while parking the others; `FlightMode` is the protocol between the mode handler and the RC
handler with its cached mode.

**Structures and arithmetic.** `BinaryStream`, `BinaryOutput` and `BinaryRoundTrip` are the bit
streams, `LogRing` the overwriting log in memory, `MessagePool` the ring of message slots,
`FixedMath` and `Atan2` the fixed-point square root and arc tangent, and `Atan2Accuracy` says how
close the latter is. `Arithmetic` and `Option`
are shared by several of them.

Objects the firmware updates in place are classes here, and every method of theirs is tied to a
function of the old state; what the firmware promises is then proved of those functions, over
runs. A word or byte on which bits matter is a bit vector in the framing stack and a sequence of
bits in the bit streams; everywhere else it is an integer with its width written out.

Some promises turned out not to hold in full. For each the condition under which they do is proved:

- A load after a complete save gives back what was saved if and only if no octet left unwritten
  between two frames is 0x7D and the parser is not deaf: inside a frame, behind an escape or full,
  as an earlier load can leave it that met no frame (`ParamStore.LoadAfterSave`). Both ways to fail
  are shown (`ParamStoreFailures.DirtyGap`, `ParamStoreFailures.CleanSaveNotLoaded`). A parser whose
  leftover octets happen to pass for a frame is the one exception, and what it does is stated. The
  second of two loads is decided by the gaps alone (`ParamStore.SecondLoad`).
- Saving and loading restores the tree of a handler whose messages get further each time if and only
  if no settable node lies before the position at which the save finds the handler's dump
  (`ParamSaveRun.SaveAndLoad`). A save that breaks off leaves that position in the middle of the tree:
  the master starts over, the handler does not. The next save then stores the rest of the tree only,
  and the load after it succeeds (`ParamSaveLoss.NextSaveLoses`, `ParamSaveLoss.BrokenSaveExample`).
  After a failed write the save also goes on by itself, with the answer that was already asked for
  (`ParamSaveLoss.BrokenSaveGoesOn`), and can leave out a whole handler
  (`ParamSaveLoss.FirstHandlerLeftOut`).
- A save comes to its end if and only if the dump of every handler does and each answer, as it comes,
  can be stored (`ParamSaveRun.SaveEndsIff`).
- A frame cut into pieces is delivered if and only if every piece fits the room that is left when it
  arrives (`SlipParser.FrameInPieces`); `SlipParser.FlagsRefused` shows one that does not.
- A printed value is read back if and only if it has at most nine characters and is not the
  maximum of its type (`ParamWalk.NodeRoundTrip`), and a dumped tree is restored if and only if that
  holds of all its settable values (`ParamRestore.RestoresIfAllSurvive`).
- Resuming a dump skips nothing, but it need not come to an end (`ParamDumpStalls.NeverFinishes`).
  It does if every node can be reached in a message and every subtree be left once it is finished
  (`ParamDumpEnds.SeriesEnds`). Where all subtrees can be left, it does if and only if all nodes can
  be reached (`ParamDumpEnds.EndsIfReachable`); where each subtree is printed in one message, it does
  from every position if and only if there is room for the way back up after each
  (`ParamDumpEnds.EndsIfRoomBack`).
- A new handler gets exact subscription tables if and only if the master has received every
  announcement before it registers (`EventMesh.RegisteredConsistent`).
- A field is written faithfully to a bit stream if and only if it fits the current byte, ends on a
  byte boundary or is whole bytes long (`BinaryOutput.FaithfulWidths`).

Where code and documentation disagree the code is modelled. The header of the parameter tree
(QuadFC/Components/Parameters/inc/parameters.h:20-41) gives `/root/rate/Ki<1>[12]` as a path that
sets a value; the code rejects every path whose last module is not closed by a separator
(`ParamHandler.SetNeedsSeparator`). The interval stated for the result of atan2Lerp uses 0x4000
for a half turn; the code uses 2^16.

## Model

| member | source | states |
|---|---|---|
| ParamSaveLoop.SaveAndReload | QuadFC/Components/Parameters/src/paramMasterHandler.c:237-473 | The whole stack on the objects: whenever the save can come to its end, over clean memory, a load by a parser that listens succeeds and sends set messages of the parameter type, each to a handler, that restore in every handler at least the nodes from the position on at which the save found it, and exactly those if its messages get further each time |
| ParamSaveLoop.SaveParameters | QuadFC/Components/Parameters/src/paramMasterHandler.c:329-473 | Request by request, over any number of handler objects and from any positions of their dumps: whenever there is a run of the protocol, the save ends and stores exactly its answers |
| ParamSaveLoop.TurnAmong | QuadFC/Components/Parameters/src/paramMasterHandler.c:399-462 | A turn changes the handler that was asked and no other |
| ParamSaveLoop.SaveTurn | QuadFC/Components/Parameters/src/paramMasterHandler.c:399-462 | One request, the answer of the handler object and its storing by the master object are one turn of the protocol |
| ParamSaveLoop.Ask | QuadFC/Components/Parameters/src/paramHandler.c:259-305 | The handler answers a save request with the next part of its dump under its own address, and remembers where to go on |
| ParamSaveRun.SaveAndLoad | QuadFC/Components/Parameters/src/paramMasterHandler.c:237-473 | Every tree of a handler whose messages get further is restored whole by save and load if and only if no settable node lies before the position at which the save found the handler, as is the case at the beginning |
| ParamSaveRun.SavedTreesRestored | QuadFC/Components/Parameters/src/paramMasterHandler.c:237-313 | From any positions of the dumps: of whatever a run of the save protocol stored, a load over clean gaps by a parser that listens sends to every handler what restores its settable nodes from its position on; nodes before it keep what they hold, all of them if its messages get further, those of earlier subtrees of the root in any case |
| ParamSaveRun.RestoredWholeIff | QuadFC/Components/Parameters/src/paramMasterHandler.c:237-313 | What restores exactly the nodes from a position on restores every tree whole if and only if no settable node lies before it |
| ParamSaveRun.SaveEndsIff | QuadFC/Components/Parameters/src/paramMasterHandler.c:399-473 | A save can come to its end if and only if the dump of every handler does and each answer, as it comes, can be stored |
| ParamSaveRun.RunIsCollected | QuadFC/Components/Parameters/src/paramMasterHandler.c:399-473 | A run of the save is a collection of answers, each of which can be stored after those before it |
| ParamSaveRun.SaveCompletes | QuadFC/Components/Parameters/src/paramMasterHandler.c:447-462 | A condition on lengths: if every message of every handler gets further, no name needs stuffing and the region has 249 octets for every node, a save ends after as many messages as there are nodes at most |
| ParamSaveRun.CollectsServes | QuadFC/Components/Parameters/src/paramMasterHandler.c:405-453 | In a save every handler from the first on is asked until its dump is finished: its messages carry a whole series of dumps |
| ParamSaveRun.CollectsAnswers | QuadFC/Components/Parameters/src/paramHandler.c:270-298 | Everything a save collects are parameter messages of the handlers to the master |
| ParamSaveRun.LoadSendsSets | QuadFC/Components/Parameters/src/paramMasterHandler.c:237-313 | Everything a load sends after a whole save are set messages of the master to the handlers |
| ParamSaveRun.CollectsSkips | QuadFC/Components/Parameters/src/paramMasterHandler.c:405-453 | A handler that has been saved is not asked again |
| ParamSaveRun.CollectsEnds | QuadFC/Components/Parameters/src/paramHandler.c:273-301 | What can be collected comes from handlers whose dumps come to an end |
| ParamSaveRun.RunIsUnique | QuadFC/Components/Parameters/src/paramMasterHandler.c:399-473 | From one state there is one run |
| ParamSaveRun.AnswerFits | QuadFC/Components/Parameters/src/paramMasterHandler.c:426-431 | The frame of every answer of a tree without ~ and } in its names has at most 248 octets, whatever its header and checksum |
| ParamSaveRun.AnswerText | QuadFC/Components/Parameters/src/paramHandler.c:273-281 | An answer is a text of less than 200 characters that a null-terminated string can hold |
| ParamSaveLoss.AnswerMoves | QuadFC/Components/Parameters/src/paramHandler.c:281-291 | A handler that gets further and is not finished has left its position, whatever becomes of its answer |
| ParamSaveLoss.NextSaveLoses | QuadFC/Components/Parameters/src/paramMasterHandler.c:465-472 | After a save that a failed write broke off, the next save is complete and its load succeeds, but a handler that has a settable node before its position is not restored |
| ParamSaveLoss.BrokenSaveExample | QuadFC/Components/Parameters/src/paramMasterHandler.c:436-472 | For one, a tree of seven settable parameters: the save after the broken one ends, the load succeeds and the tree is not restored |
| ParamSaveLoss.BrokenSaveGoesOn | QuadFC/Components/Parameters/src/paramMasterHandler.c:447-472 | After a failed write the answer that was already asked for is stored at the beginning; then follow all handlers from the first on, or from the second on if that answer finished its handler |
| ParamSaveLoss.FirstHandlerLeftOut | QuadFC/Components/Parameters/src/paramMasterHandler.c:447-472 | In the second case the save is complete without the first handler: a load succeeds and changes nothing in it |
| ParamPersistence.SavedTreeRestored | QuadFC/Components/Parameters/src/paramMasterHandler.c:237-313 | After any complete save with clean gaps whose messages from a handler carry a finished series of dumps from any position, a load by a parser that listens sends that handler messages that set exactly the settable nodes shown to the dumped values; all nodes from the position on are shown |
| ParamPersistence.LoadReturns | QuadFC/Components/Parameters/src/paramMasterHandler.c:415-419 | From every parser state: a load after a complete save sends every answer, in order, back to the handler it came from as a set command of its type, number and payload, if and only if the gaps are clean and the parser listens, but for leftovers that happen to decode to the only saved message |
| ParamPersistence.PayloadsAreTexts | QuadFC/Components/Parameters/src/paramHandler.c:228-252 | Setting from the payloads of a series gives the same tree as setting from its texts |
| ParamPersistence.TextOfOctets | QuadFC/Components/Parameters/src/paramHandler.c:279-291 | A text stored with its terminating null is read back as the same text |
| ParamPersistence.CText | QuadFC/Components/Parameters/src/parameters.c:304-335 | Every dump of a tree with plain names can be held by a null-terminated string |
| Crc16.CrcInit | QuadFC/Components/CRC16/src/crc.c:41-81 | Each table entry is eight steps of division of its index, for all 256 |
| Crc16.CrcFast | QuadFC/Components/CRC16/src/crc.c:94-114 | The table-driven loop computes, on every message, the bit-serial checksum |
| Crc16.FeedIsLongDivision | QuadFC/Components/CRC16/src/crc.c:94-114 | The bit-serial register holds the remainder of the message and sixteen zeros, start value added on the leading bits |
| Crc16.CrcIsLongDivision | QuadFC/Components/CRC16/src/crc.c:94-114 | The checksum is the remainder of paper long division of the message with its first sixteen bits inverted, followed by sixteen zeros |
| Crc16.TableLinear | QuadFC/Components/CRC16/src/crc.c:41-81 | The table entry of an XOR is the XOR of the table entries |
| Crc16.BitStepLinear | QuadFC/Components/CRC16/src/crc.c:55-75 | One bit of division distributes over XOR |
| Crc16.DivideIsFeed | QuadFC/Components/CRC16/src/crc.c:55-75 | Dividing with message bits added to the register beforehand is feeding them one at a time |
| Crc16.ByteStepIsFeed | QuadFC/Components/CRC16/src/crc.c:94-114 | One table look-up does what eight single-bit steps do |
| Crc16.FastStep | QuadFC/Components/CRC16/src/crc.c:100-112 | From a ready table, one turn of the loop advances the checksum by exactly one octet |
| Crc16Errors.SelfCheck | QuadFC/Components/SLIP/src/slip_packet.c:134-149 | Appending two octets brings the remainder to zero if and only if they spell the checksum |
| Crc16Errors.FeedLinear | QuadFC/Components/CRC16/src/crc.c:94-114 | The remainder of a difference is the difference of the remainders |
| Crc16Errors.BurstNonZero | QuadFC/Components/CRC16/src/crc.c:94-114 | No error pattern confined to sixteen consecutive bits is divisible by the polynomial |
| Crc16Errors.BurstDetected | QuadFC/Components/CRC16/src/crc.c:94-114 | Different messages of one length that differ only within sixteen consecutive bits have different checksums |
| Crc16Errors.OddDivision | QuadFC/Components/CRC16/src/crc.c:94-114 | Division by this polynomial keeps the parity of the number of ones |
| Crc16Errors.OddErrorsDetected | QuadFC/Components/CRC16/src/crc.c:94-114 | Messages that differ in an odd number of bits have different checksums |
| SlipFraming.BurstRejected | QuadFC/Components/SLIP/src/slip_packet.c:134-149 | Of two different strings that differ only within sixteen consecutive bits, checksum included, at most one passes the check |
| SlipFraming.OddErrorsRejected | QuadFC/Components/SLIP/src/slip_packet.c:134-149 | The same for any odd number of flipped bits |
| CharCircularBuffer.WindowGrows | QuadFC/Components/CharCircularBuffer/src/CharCircularBuffer.c:77-108 | Writing a block at the end of the window of a circular store appends it to the queue |
| CharCircularBuffer.WindowShrinks | QuadFC/Components/CharCircularBuffer/src/CharCircularBuffer.c:110-141 | Moving the tail over a block drops exactly the oldest elements and leaves the end where it was |
| CharCircularBuffer.CharCircBuffer.Push | QuadFC/Components/CharCircularBuffer/src/CharCircularBuffer.c:77-108 | Appends exactly the first min(size, free) octets to the queue, also when the copy wraps, and returns their number |
| CharCircularBuffer.CharCircBuffer.Pop | QuadFC/Components/CharCircularBuffer/src/CharCircularBuffer.c:110-141 | Removes and returns exactly the oldest min(size, count) octets, also when the copy wraps |
| SlipPacket.AddCrc | QuadFC/Components/SLIP/src/slip_packet.c:120-132 | Appends the checksum, high octet first, or refuses and changes nothing when there is no room |
| SlipPacket.CheckCrc | QuadFC/Components/SLIP/src/slip_packet.c:134-149 | Accepts exactly the strings whose last two octets are the checksum of the rest |
| SlipPacket.Packetize | QuadFC/Components/SLIP/src/slip_packet.c:77-117 | Writes exactly the flagged, checked and stuffed frame of the data, or returns 0 exactly when it does not fit |
| SlipFraming.WithCrcPasses | QuadFC/Components/SLIP/src/slip_packet.c:120-149 | What AddCRC completes, CheckCRC accepts |
| SlipFraming.CrcPassesIsZero | QuadFC/Components/SLIP/src/slip_packet.c:134-149 | The comparison in CheckCRC is the test for a zero remainder over data and checksum together |
| SlipFraming.StuffRuns | QuadFC/Components/SLIP/src/slip_packet.c:214-264 | Stuffed octets decode to the original ones, one event-free octet at a time |
| SlipFraming.ThreeKinds | QuadFC/Components/SLIP/src/slip_packet.c:230-258 | Every receiver takes the next flag as an opening one, loses the frame it opens with an error, or takes its leftovers for a frame |
| SlipFraming.FrameFromAnywhere | QuadFC/Components/SLIP/src/slip_packet.c:214-270 | From every receiver state a well-formed frame leaves a frame open, and is delivered at its closing flag exactly when the receiver was not deaf to its opening flag |
| SlipFraming.FrameIsQuiet | QuadFC/Components/SLIP/src/slip_packet.c:214-270 | From every receiver that listens a frame reports nothing but its payload at its last octet |
| SlipFraming.StreamRoundTrip | QuadFC/Components/SLIP/src/slip_packet.c:174-274 | Concatenated frames yield exactly their payloads, in order, each at its closing flag |
| SlipFraming.SecondFrameDelivered | QuadFC/Components/SLIP/src/slip_packet.c:174-274 | From every receiver state, of two consecutive frames the second is delivered intact, at its last octet and nowhere else |
| SlipReception.EscapedOctet | QuadFC/Components/SLIP/src/slip_packet.c:77-118 | Flag and escape octets are sent as the escape and the octet with bit 5 turned over, all others as they are |
| SlipReception.EscapeRead | QuadFC/Components/SLIP/src/slip_packet.c:214-230 | After an escape an octet is taken with bit 5 turned over if that gives flag or escape; any other is an error |
| SlipReception.FlagReports | QuadFC/Components/SLIP/src/slip_packet.c:230-258 | What the receiver reports at a flag, and the state it goes on from, in each case |
| SlipReception.OnlyFramesDelivered | QuadFC/Components/SLIP/src/slip_packet.c:174-274 | Over every string of octets: each payload that is delivered has come as its own frame, flag to flag; nothing else is ever delivered |
| SlipReception.DeliversIff | QuadFC/Components/SLIP/src/slip_packet.c:174-274 | Between two flags a stretch delivers a payload if and only if it is the payload and its checksum, stuffed, of a fitting length |
| SlipParser.OctetIsStep | QuadFC/Components/SLIP/src/slip_packet.c:214-264 | One turn of the inner loop is one step of the receiver |
| SlipParser.CallIsStep | QuadFC/Components/SLIP/src/slip_packet.c:174-274 | A call with one octet, pushed-back flag included, is one step of the receiver |
| SlipParser.FeedIsRun | QuadFC/Components/SLIP/src/slip_packet.c:174-274 | The parser fed one octet at a time is the receiver, over whole runs |
| SlipParser.FeedStream | QuadFC/Components/SLIP/src/slip_packet.c:174-274 | A fresh parser fed a stream of frames octet by octet returns OK exactly at each closing flag, with exactly the payloads in order |
| SlipParser.Resynchronises | QuadFC/Components/SLIP/src/slip_packet.c:174-274 | Whatever garbage the parser was fed, of two consecutive frames the second is always delivered intact |
| SlipParser.CallIsRun | QuadFC/Components/SLIP/src/slip_packet.c:174-274 | A call with a quiet block reports the event of its last octet and keeps the receiver state |
| SlipParser.TooLong | QuadFC/Components/SLIP/src/slip_packet.c:208-212 | A piece longer than the room left is refused, stuffed or not |
| SlipParser.ShortFits | QuadFC/Components/SLIP/src/slip_packet.c:208-212 | A stretch that fits the packet as it is fits it in any pieces |
| SlipParser.ChunksAreRun | QuadFC/Components/SLIP/src/slip_packet.c:174-274 | Cutting a quiet stretch of octets does not change what is reported at its end exactly if every piece fits the room left; otherwise a piece is refused |
| SlipParser.FrameInPieces | QuadFC/Components/SLIP/src/slip_packet.c:174-274 | A frame cut into any non-empty pieces is delivered by the last call and by no other, although the closing flag is pushed back, if and only if every piece fits the room left |
| SlipParser.WholeFrameRefused | QuadFC/Components/SLIP/src/slip_packet.c:208-212 | A frame that is delivered octet by octet is refused in one piece if it is longer than the packet |
| SlipParser.FlagsRefused | QuadFC/Components/SLIP/src/slip_packet.c:208-212 | For one, a payload of three flags in a packet of six octets |
| SlipPacket.Parser.Parse | QuadFC/Components/SLIP/src/slip_packet.c:174-274 | The nested loops over ring, input and fields compute the parser function exactly, on every input and state |
| SlipPacket.Parser.ParseBlock | QuadFC/Components/SLIP/src/slip_packet.c:214-270 | The inner loop over a block computes its function exactly, push-back included |
| SlipPacket.Parser.ParseOctet | QuadFC/Components/SLIP/src/slip_packet.c:216-264 | The branches on one octet compute their function exactly |
| SlipPacket.Parser.Reset | QuadFC/Components/SLIP/src/slip_packet.c:167-172 | Clears the three parser fields and nothing else |
| Serialization.Word32OfBytes | QuadFC/Components/Utilities/src/serialization.c:26-53 | Reading four big-endian octets of a 32-bit number gives the number |
| Serialization.Bytes32OfWord | QuadFC/Components/Utilities/src/serialization.c:26-53 | Writing the number read from four octets gives the octets |
| Serialization.BigEndian | QuadFC/Components/Utilities/src/serialization.c:26-38 | Of the four octets of a number the first has the highest place |
| Serialization.OneTwoThreeFour | QuadFC/Components/Utilities/src/serialization.c:26-38 | 0x01020304 is written as the octets 1, 2, 3 and 4 |
| Serialization.SerializeUint32 | QuadFC/Components/Utilities/src/serialization.c:26-38 | Writes the four octets and moves cursor and remaining size, or hands on a null cursor and writes nothing |
| Serialization.SerializeUint8 | QuadFC/Components/Utilities/src/serialization.c:111-120 | Writes one octet; like the code it asks for four octets of room |
| Serialization.SerializeString | QuadFC/Components/Utilities/src/serialization.c:133-148 | Writes length and characters, or nothing and a null cursor if they do not fit |
| Serialization.DeserializeUint32 | QuadFC/Components/Utilities/src/serialization.c:40-53 | Reads the number the four octets stand for, or hands on a null cursor |
| Serialization.DeserializeUint8 | QuadFC/Components/Utilities/src/serialization.c:122-131 | Reads one octet, or hands on a null cursor |
| Serialization.DeserializeString | QuadFC/Components/Utilities/src/serialization.c:150-167 | Succeeds exactly if length and characters are there and fit the target, and then returns them |
| ParamFc.DecodeEncode | QuadFC/BaseComponents/Messages/src/Msg_ParamFc.c:280-321 | Deserializing a serialized message gives the message, whatever follows it |
| ParamFc.EncodeDecode | QuadFC/BaseComponents/Messages/src/Msg_ParamFc.c:298-321 | Whatever deserializes starts with the serialization of what was read |
| ParamFc.FieldsOnWire | QuadFC/BaseComponents/Messages/src/Msg_ParamFc.c:280-296 | At which octets of the wire format each field lies |
| ParamFc.SerializeHeader | QuadFC/BaseComponents/MsgBase/src/message_base.c:177-190 | Writes the fourteen header octets in order |
| ParamFc.Serialize | QuadFC/BaseComponents/Messages/src/Msg_ParamFc.c:280-296 | Writes exactly the encoding of header, control fields and payload and returns the cursor after it, or a null cursor |
| ParamFc.DeserializeHeader | QuadFC/BaseComponents/MsgBase/src/message_base.c:192-205 | Reads the fourteen header octets in order, or hands on a null cursor |
| ParamFc.Deserialize | QuadFC/BaseComponents/Messages/src/Msg_ParamFc.c:298-321 | Returns exactly what the decoding of the buffer gives |
| ParamStore.SaveEffect | QuadFC/Components/Parameters/src/paramMasterHandler.c:429-462 | Storing a message writes its frame at the address, nothing else, and leaves one octet before the next address |
| ParamStore.SaveKeepsBelow | QuadFC/Components/Parameters/src/paramMasterHandler.c:399-462 | The rest of a save writes nothing below the current address |
| ParamStore.GapIsQuiet | QuadFC/Components/Parameters/src/paramMasterHandler.c:438-438 | The unwritten octet between two frames passes unnoticed unless it is the escape octet |
| ParamStore.ReadWhole | QuadFC/Components/Parameters/src/paramMasterHandler.c:244-268 | From every parser state: a parser that listens reads a stored frame whole, a deaf one fails at its opening flag, a misled one returns its leftovers |
| ParamStore.ReadRest | QuadFC/Components/Parameters/src/paramMasterHandler.c:244-268 | After its opening flag the rest of a stored frame is read as that frame |
| ParamStore.ReadAfterGap | QuadFC/Components/Parameters/src/paramMasterHandler.c:244-268 | Reading on over the gap returns the next payload exactly if the gap is not the escape octet, and fails otherwise |
| ParamStore.LoadAfterSave | QuadFC/Components/Parameters/src/paramMasterHandler.c:237-313 | From every parser state that is not misled: after an uninterrupted save a load succeeds if and only if no gap holds the escape octet and the parser is not deaf, and then sends exactly the saved messages in order; otherwise it sends a prefix of them. For the others what is sent is stated; the parser is left listening |
| ParamStore.LoadIsLoadedBy | QuadFC/Components/Parameters/src/paramMasterHandler.c:237-313 | What a load makes of a complete save from every parser state, case by case |
| ParamStore.SecondLoad | QuadFC/Components/Parameters/src/paramMasterHandler.c:237-313 | Whatever state the parser is in, the second of two loads gives back the save exactly if the gaps are clean |
| ParamStore.CleanMemory | QuadFC/Components/Parameters/src/paramMasterHandler.c:438-438 | Over memory without escape octets all gaps of a save are clean |
| ParamStore.StampedKeeps | QuadFC/Components/Parameters/src/paramMasterHandler.c:415-419 | A stored answer keeps its type, message number, acknowledgement and payload, goes to its sender as a set command, is numbered by its place modulo 256, and only the last is marked |
| ParamStore.SavedReturned | QuadFC/Components/Parameters/src/paramMasterHandler.c:302-309 | What a load gives back of a complete save are the answers as set commands of the master, each to its sender, numbered from zero on, the last alone marked |
| ParamStore.LoadNumbers | QuadFC/Components/Parameters/src/paramMasterHandler.c:237-313 | Whatever is in memory and in whatever state the parser is: the messages a load sends are of the master, numbered one after the other, and the last is marked exactly if the load succeeds |
| ParamStore.LoadedSomething | QuadFC/Components/Parameters/src/paramMasterHandler.c:244-309 | A load that succeeds has sent something |
| ParamStore.ReadGivesUp | QuadFC/Components/Parameters/src/paramMasterHandler.c:244-268 | Of octets that complete nothing 261 are read and no more |
| ParamStore.LoadFromFrame | QuadFC/Components/Parameters/src/paramMasterHandler.c:244-309 | From the first frame on, the load loop sends what was saved up to the first bad gap |
| ParamStoreFailures.LoadDeafens | QuadFC/Components/Parameters/src/paramMasterHandler.c:254-266 | A load from a region of zeros with one stray flag stops at its limit of 261 octets and leaves a new parser deaf |
| ParamStoreFailures.ZerosFail | QuadFC/Components/SLIP/src/slip_packet.c:134-149 | No string of zeros passes the checksum |
| ParamStoreFailures.CleanSaveNotLoaded | QuadFC/Components/Parameters/src/paramMasterHandler.c:254-276 | After such a load, a complete save is not loaded, whatever its gaps hold |
| ParamStoreFailures.DirtyGap | QuadFC/Components/Parameters/src/paramMasterHandler.c:438-438 | Over memory full of escape octets a complete save of two messages has a bad gap, and the load fails |
| ParamMasterHandler.ParamMaster.HandleSave | QuadFC/Components/Parameters/src/paramMasterHandler.c:399-473 | A param_save answer: the frame of the message with its fields spelt out is written to memory, or nothing, or the part of it the memory takes; what the address, the number, the handler and the request become in each case |
| ParamMasterHandler.ParamMaster.ReadPacket | QuadFC/Components/Parameters/src/paramMasterHandler.c:246-277 | The read loop returns the next frame of the memory, or fails, after at most 261 octets, and leaves the parser in the stated state either way |
| ParamMasterHandler.ParamMaster.HandleLoad | QuadFC/Components/Parameters/src/paramMasterHandler.c:237-313 | From every parser state the load branch sends exactly what the load function gives, leaves the parser in the state it gives, and ends ready |
| ParamMasterHandler.SaveThenLoad | QuadFC/Components/Parameters/src/paramMasterHandler.c:237-473 | On the object, from any state of the parser that is not misled: an uninterrupted save followed by a load succeeds if and only if the gaps are clean and the parser is not deaf, sends every saved answer back as a set command in order, and leaves a parser that listens |
| ParamText.StrToLOfDecimal | QuadFC/Components/Parameters/src/parameters.c:162-234 | What strtol reads from a printed number is the number |
| ParamText.StrToLReads | QuadFC/Components/Parameters/src/parameters.c:234-234 | strtol reads one number, signed or not, after blanks and up to what is no digit |
| ParamText.StrToLNothing | QuadFC/Components/Parameters/src/parameters.c:234-234 | And a text without a number as zero |
| ParamText.StrChrMark | QuadFC/Components/Utilities/src/string_utils.c:158-197 | The first occurrence of a mark is found where it stands |
| ParamText.ModuleCut | QuadFC/Components/Utilities/src/string_utils.c:209-218 | A module followed by a separator is cut off whole, and the rest is what follows |
| ParamText.BetweenCut | QuadFC/Components/Utilities/src/string_utils.c:117-156 | A text between brackets is found exactly if it fits the target |
| ParamWalk.NodeMarks | QuadFC/Components/Parameters/src/parameters.c:304-335 | A printed node has its marks where the reader looks for them, no separator, and at most 31 characters |
| ParamWalk.ModuleOfNode | QuadFC/Components/Utilities/src/string_utils.c:209-218 | A printed node followed by a separator is read as one module |
| ParamWalk.NameOfNode | QuadFC/Components/Utilities/src/string_utils.c:220-240 | The name read from a printed node is its name |
| ParamWalk.TypeOfNode | QuadFC/Components/Utilities/src/string_utils.c:204-207 | The type read from a printed node is its type code |
| ParamWalk.ValueOfNode | QuadFC/Components/Utilities/src/string_utils.c:199-202 | The value text read from a printed node is its number if that has at most nine characters, and empty otherwise |
| ParamWalk.NodeRoundTrip | QuadFC/Components/Parameters/src/parameters.c:466-508 | Printing a node and updating it from the text gives the value back, whatever it held, if and only if the value prints in at most nine characters and is not the maximum of its type |
| ParamWalk.EnterFinds | QuadFC/Components/Parameters/src/parameters.c:510-541 | The child a printed module names is found and set from the printed value text, whether the value survives or not |
| ParamWalk.EnterStep | QuadFC/Components/Parameters/src/parameters.c:510-541 | The child a printed module names is found and takes the printed value |
| ParamWalk.UpStep | QuadFC/Components/Parameters/src/parameters.c:526-529 | The parent notation leads to the parent and changes nothing |
| ParamWalk.SetWalk | QuadFC/Components/Parameters/src/parameters.c:543-601 | Reading the text of any walk over the tree is accepted to its end and sets exactly the settable nodes entered to the printed values |
| ParamPath.ReadsPath | QuadFC/Components/Parameters/src/parameters.c:543-601 | Reading the text of any modules of the format, each with type and value or without, up and down the tree from any node, is reading the modules one after the other |
| ParamPath.ModuleMarks | QuadFC/Components/Utilities/src/string_utils.c:158-197 | Where the marks of a module stand when type and value may be left out |
| ParamPath.TypeReads | QuadFC/Components/Utilities/src/string_utils.c:204-207 | The type is read if it is given in at most two characters, and is empty otherwise |
| ParamPath.ValueReads | QuadFC/Components/Utilities/src/string_utils.c:199-202 | The value is read if it is given in at most nine characters, and is empty otherwise |
| ParamPath.RefusedIff | QuadFC/Components/Parameters/src/parameters.c:436-541 | A module is refused if and only if it is too long, leads to no node or is not taken by the node it leads to, because of another type or a value out of range; then nothing from it on has any effect |
| ParamPath.PathSets | QuadFC/Components/Parameters/src/paramHandler.c:228-252 | A set message with the way to one settable parameter, each type given or left out, after whatever modules of other trees, sets this parameter to the number and no other, or nothing if it does not accept the number |
| ParamPath.AcceptedConverts | QuadFC/Components/Parameters/src/parameters.c:219-303 | A settable node accepts a number exactly below the maximum of its type, and reduces it to the width of the type |
| ParamPath.FindsFirstChild | QuadFC/Components/Parameters/src/parameters.c:530-540 | The first child of a name is found, or none if no child has it |
| ParamPath.FindsRoot | QuadFC/Components/Parameters/src/paramHandler.c:151-213 | A message is read from the first module at level zero that has the name of the root, whatever modules come before |
| ParamPath.FindsNoRoot | QuadFC/Components/Parameters/src/paramHandler.c:151-213 | Without such a module it is not read |
| ParamPath.NeedsFirstSeparator | QuadFC/Components/Parameters/src/paramHandler.c:157-161 | A message that does not begin with a separator changes nothing |
| ParamDumpText.PrintedType | QuadFC/Components/Parameters/src/parameters.c:318-333 | What a node of each type prints after its name, code by code |
| ParamDumpText.NoLeadingZero | QuadFC/Components/Parameters/src/parameters.c:162-217 | A printed number has no leading zero |
| ParamDumpText.DumpIsDescription | QuadFC/Components/Parameters/src/parameters.c:395-434 | A dump from the beginning of a subtree that finishes has printed each node, its children in order and the way back after each, and nothing else; it finishes if there is room for one more node |
| ParamDumpText.ExampleDump | QuadFC/Components/Parameters/inc/parameters.h:30-42 | The tree of the header is dumped in one message to the text the header shows |
| ParamDumpText.ExampleSet | QuadFC/Components/Parameters/inc/parameters.h:44-48 | Both paths with which the header sets rate/Ki, closed by a separator, set it and nothing else |
| ParamDump.NodeVisits | QuadFC/Components/Parameters/src/parameters.c:395-434 | A dump, finished or not, prints a walk over the tree; a finished one returns to where it began |
| ParamDump.NodeCovers | QuadFC/Components/Parameters/src/parameters.c:395-434 | A dump prints every node from its start position on, up to its new position if it stopped, and leaves start indices it can go on from |
| ParamDump.ChildrenCover | QuadFC/Components/Parameters/src/parameters.c:419-433 | The same for the loop over the children from any index on |
| ParamDump.SeriesCovers | QuadFC/Components/Parameters/src/paramHandler.c:259-292 | A series of resumed dumps that ends has printed every node from its first position on |
| ParamDump.NothingSkipped | QuadFC/Components/Parameters/src/paramHandler.c:259-292 | A dump resumed any number of times never skips a node, even if values change in between |
| ParamDump.SetDump | QuadFC/Components/Parameters/src/parameters.c:543-601 | A dump that stopped anywhere is still accepted by the reader and sets exactly the nodes it shows |
| ParamDump.DumpThenSet | QuadFC/Components/Parameters/src/parameters.c:395-434 | Parsing a finished dump into any tree of the same shape gives every settable node the dumped value and leaves the others alone |
| ParamDump.SeriesRestores | QuadFC/Components/Parameters/src/paramHandler.c:259-299 | Applying the partial messages of a series in turn gives the same tree as one full dump |
| ParamRestore.RestoresIfAllSurvive | QuadFC/Components/Parameters/src/parameters.c:543-601 | The messages of a series restore every tree of the shape if and only if every settable value prints in at most nine characters and is not the maximum of its type |
| ParamRestore.DumpRestoresIfAllSurvive | QuadFC/Components/Parameters/src/parameters.c:543-601 | The same of a dump that finished in one message |
| ParamRestore.WalkKeeps | QuadFC/Components/Parameters/src/parameters.c:466-508 | Reading a walk never changes a node whose value does not survive printing |
| ParamDumpEnds.SeriesEnds | QuadFC/Components/Parameters/src/parameters.c:395-434 | If in every message every node can be reached and every subtree left, a series ends from every position, after as many messages as there are nodes left at most, even if values change in between |
| ParamDumpEnds.GetsFurther | QuadFC/Components/Parameters/src/parameters.c:395-434 | A dump that goes on at a position finishes or stops at a later one |
| ParamDumpEnds.SeriesGoesOn | QuadFC/Components/Parameters/src/parameters.c:395-434 | Where every message gets further, a series prints no node before its first position |
| ParamDumpEnds.DumpGoesOn | QuadFC/Components/Parameters/src/parameters.c:395-434 | One such dump prints no node before its position, and what was before it is before the new one |
| ParamDumpEnds.SeriesStaysIn | QuadFC/Components/Parameters/src/parameters.c:395-434 | Any series prints no node of the subtrees of the root before the one it starts in |
| ParamDumpEnds.EndsIfReachable | QuadFC/Components/Parameters/src/parameters.c:403-407 | Where every subtree can be left, a dump ends if and only if the way to every node, and the node, fit a message |
| ParamDumpEnds.EndsIfRoomBack | QuadFC/Components/Parameters/src/parameters.c:419-430 | Where every subtree is printed in one message, dumps end from all positions if and only if after each subtree there is room for the way back up |
| ParamDumpEnds.StandsStill | QuadFC/Components/Parameters/src/parameters.c:424-430 | A dump that starts at a subtree, finishes it and has no room for the way back up will start there again |
| ParamDumpEnds.ShortNodesLeavable | QuadFC/Components/Parameters/src/parameters.c:419-430 | Nodes that print shortly enough for their depth can all be left |
| ParamDumpEnds.NodeUsed | QuadFC/Components/Parameters/src/parameters.c:395-434 | A dump adds the printed width of the subtree at most, and exactly that if it prints all of it |
| ParamDumpStalls.NeverFinishes | QuadFC/Components/Parameters/src/parameters.c:426-432 | Resuming does not always end: for a tree of eight levels every message of 200 characters stops where it began, so no series of dumps finishes |
| ParamDumpStalls.ChainDump | QuadFC/Components/Parameters/src/parameters.c:426-432 | Exactly when a chain of nodes prints to its end but not all the way back up, and that its start indices are all zero then |
| ParamHandler.AppendDumpFromHere | QuadFC/Components/Parameters/src/parameters.c:395-434 | The recursive method on buffer and start indices appends exactly the text, and leaves exactly the indices, that the dump function says |
| ParamHandler.TextBuffer.AppendNodeString | QuadFC/Components/Parameters/src/parameters.c:304-335 | Appends the printed node, or nothing if fewer than 37 characters are free |
| ParamHandler.TextBuffer.AppendDivider | QuadFC/Components/Parameters/src/parameters.c:128-143 | Appends the separator exactly if it and the null fit |
| ParamHandler.TextBuffer.AppendParentNotation | QuadFC/Components/Parameters/src/parameters.c:145-160 | Appends the parent notation exactly if it and the null fit |
| ParamHandler.Handler.Dump | QuadFC/Components/Parameters/src/paramHandler.c:117-126 | Dumps from the root after the leading separator |
| ParamHandler.Handler.HandleGet | QuadFC/Components/Parameters/src/paramHandler.c:258-299 | The reply holds the next dump of its series with its number and last mark; the indices stay resumable or start again, and the other series is untouched |
| ParamHandler.Handler.SetFromHere | QuadFC/Components/Parameters/src/parameters.c:543-601 | The reading loop changes the values exactly as the set function says, also when it fails half way |
| ParamHandler.Handler.HandleSet | QuadFC/Components/Parameters/src/paramHandler.c:228-252 | A set message changes exactly what the part of it below this root says |
| ParamHandler.FindRoot | QuadFC/Components/Parameters/src/paramHandler.c:151-213 | Finds the first module at level zero of that name, or nothing |
| ParamHandler.DumpFindsItsRoot | QuadFC/Components/Parameters/src/paramHandler.c:151-213 | A dump is found whole by the handler of its root and by no other |
| ParamHandler.NoRootBelow | QuadFC/Components/Parameters/src/paramHandler.c:163-211 | Below its root a dump shows no module at level zero, however it moves up and down |
| ParamHandler.DumpMessage | QuadFC/Components/Parameters/src/paramHandler.c:228-252 | A dump message is read in full by handlers of its root and changes nothing in any other handler |
| ParamHandler.SetNeedsSeparator | QuadFC/Components/Utilities/src/string_utils.c:209-218 | Only paths whose last module is closed by a separator are accepted |
| ParamHandler.DumpFits | QuadFC/Components/Parameters/src/parameters.c:395-434 | No dump fills the buffer to its last character |
| EventMesh.InsertedMembers | QuadFC/BaseComponents/EventHandler/src/event_handler.c:581-618 | Subscribing adds that type alone, exactly if it was there or a slot was free, and makes no duplicates |
| EventMesh.RemovedMembers | QuadFC/BaseComponents/EventHandler/src/event_handler.c:621-635 | Unsubscribing takes that type away and nothing else |
| EventTypes.SubscribeDoes | QuadFC/BaseComponents/EventHandler/src/event_handler.c:257-275 | Without a callback nothing happens; with one the handler is subscribed to what it was and to the type if a slot was free, and tells everyone it believes to listen and who has room |
| EventTypes.UnsubscribeDoes | QuadFC/BaseComponents/EventHandler/src/event_handler.c:278-295 | Without a callback nothing happens; with one the handler is subscribed to exactly what it was but for the type, and tells everyone |
| EventTypes.RegisterDoes | QuadFC/BaseComponents/EventHandler/src/event_handler.c:723-733 | A type that exists gets a callback and a subscription, another one nothing |
| EventTypes.SendDoes | QuadFC/BaseComponents/EventHandler/src/event_handler.c:297-398 | A message to one handler gets there exactly if the sender believes it subscribed and it has room; three types are never sent |
| EventTypes.SendToAllDoes | QuadFC/BaseComponents/EventHandler/src/event_handler.c:297-433 | And so does a message to all |
| EventTypes.ReceiveDoes | QuadFC/BaseComponents/EventHandler/src/event_handler.c:486-507 | Receiving takes the oldest message, and enters the slots of a registered handler in the table if there is a callback for subscriptions |
| EventTypes.TypesCount | QuadFC/BaseComponents/EventHandler/src/event_handler.c:581-635 | Slots without duplicates are a set with room for as many types as there are slots |
| EventTypes.RunInterest | QuadFC/BaseComponents/EventHandler/src/event_handler.c:257-295 | In every run, lossy or not, what a handler is subscribed to and has callbacks for follows from its own calls as for a bounded set |
| EventTypes.RunReaches | QuadFC/BaseComponents/EventHandler/src/event_handler.c:401-433 | After every run without loss, once all queues are emptied, a message that anyone sends to all reaches exactly the handlers whose own calls have left them subscribed to its type |
| EventTypes.LastCall | QuadFC/BaseComponents/EventHandler/src/event_handler.c:278-295 | In particular it does not reach a handler that has unsubscribed last, and does reach one that has subscribed last if it had a slot |
| EventMesh.AnnouncedTo | QuadFC/BaseComponents/EventHandler/src/event_handler.c:401-464 | After an announcement a handler will know the new subscriptions exactly if its queue had room or nothing changed; what it knows of others is untouched |
| EventMesh.StepConsistent | QuadFC/BaseComponents/EventHandler/src/event_handler.c:257-433 | Every step keeps: each row equals the subscriptions of its handler, or the last pending message from it does |
| EventMesh.ReceiveConsistent | QuadFC/BaseComponents/EventHandler/src/event_handler.c:735-757 | Receiving keeps it |
| EventMesh.RunConsistent | QuadFC/BaseComponents/EventHandler/src/event_handler.c:257-433 | It holds after every run in which no queue is full at an announcement |
| EventMesh.TablesConverge | QuadFC/BaseComponents/EventHandler/src/event_handler.c:735-757 | When no announcement is pending, all tables of all handlers are identical and exact |
| EventMesh.DrainingConverges | QuadFC/BaseComponents/EventHandler/src/event_handler.c:486-507 | From wherever a run has led, emptying all queues makes all tables exact |
| EventMesh.ReachesSubscribers | QuadFC/BaseComponents/EventHandler/src/event_handler.c:401-433 | With exact tables a broadcast reaches exactly the handlers subscribed to its type |
| EventMesh.RegisteredConsistent | QuadFC/BaseComponents/EventHandler/src/event_handler.c:193-246 | Registering a handler keeps the tables consistent if and only if the master has received all announcements |
| EventMesh.SilentRun | QuadFC/BaseComponents/EventHandler/src/event_handler.c:735-757 | In every run, lossy or not, only a handler's own announcements change what another will believe of it |
| EventMesh.RegisteredTooEarly | QuadFC/BaseComponents/EventHandler/src/event_handler.c:232-242 | A handler that registers while an announcement is pending at the master is wrong about the announcer, and stays so in every run until that one announces something again |
| EventMesh.AssembledConsistent | QuadFC/BaseComponents/EventHandler/src/event_handler.c:131-246 | The master alone is consistent, and so is every segment assembled before anything is announced |
| EventHandler.Handler.InsertSubscription | QuadFC/BaseComponents/EventHandler/src/event_handler.c:581-618 | The loop fills the first free slot unless the type is there, and tells whether it is there afterwards |
| EventHandler.Handler.RemoveSubscription | QuadFC/BaseComponents/EventHandler/src/event_handler.c:621-635 | The loop frees the first slot that holds the type |
| EventHandler.SubscribedIn | QuadFC/BaseComponents/EventHandler/src/event_handler.c:638-654 | The loop finds the type exactly if a slot holds it |
| EventHandler.SendBCInternal | QuadFC/BaseComponents/EventHandler/src/event_handler.c:401-433 | The loop over the handler objects puts the message into exactly the queues the broadcast function says |
| EventHandler.Subscribe | QuadFC/BaseComponents/EventHandler/src/event_handler.c:257-275 | On the objects: the subscription step |
| EventHandler.Unsubscribe | QuadFC/BaseComponents/EventHandler/src/event_handler.c:278-295 | On the objects: the unsubscription step |
| EventHandler.Receive | QuadFC/BaseComponents/EventHandler/src/event_handler.c:486-507 | On the objects: the receive step |
| EventWait.EventRing.PushBack | QuadFC/BaseComponents/EventHandler/src/event_circular_buffer.c:67-80 | Appends to the queue of sixteen, or refuses when it is full |
| EventWait.EventRing.PopFront | QuadFC/BaseComponents/EventHandler/src/event_circular_buffer.c:82-94 | Removes the oldest, or reports that there is none |
| EventWait.Waiter.FireOrBufferEvent | QuadFC/BaseComponents/EventHandler/src/event_handler.c:657-685 | Fires, parks or drops the event as the handling function says, and counts it if it matches |
| EventWait.Waiter.HandleBuffered | QuadFC/BaseComponents/EventHandler/src/event_handler.c:522-535 | The first loop revisits the parked events once each |
| EventWait.Waiter.WaitForEvent | QuadFC/BaseComponents/EventHandler/src/event_handler.c:509-569 | Takes from the queue exactly until enough was found, time ran out, the queue stayed empty or an event was dropped, and handles what it took as the wait function says |
| EventWait.RevisitSplits | QuadFC/BaseComponents/EventHandler/src/event_handler.c:522-535 | Revisiting fires the matching parked events in order and leaves the others parked in order, callbacks of their own or not |
| EventWait.TakeSplits | QuadFC/BaseComponents/EventHandler/src/event_handler.c:543-566 | Of received events the matching are fired and the others parked, in order, exactly as long as they fit |
| EventWait.WaitSplits | QuadFC/BaseComponents/EventHandler/src/event_handler.c:509-569 | A whole wait fires the matching and parks the other events of old parked ones followed by received ones, each in order, if and only if the others fit in sixteen slots; only the event waited for needs a callback |
| EventWait.WaitEndsIff | QuadFC/BaseComponents/EventHandler/src/event_handler.c:509-569 | A wait takes everything in if and only if every event it has to run a callback for has one and, if the others are parked, they fit |
| EventWait.WaitAll | QuadFC/BaseComponents/EventHandler/src/event_handler.c:668-676 | Without parking every event is fired in the order it came |
| EventWait.TakeConserves | QuadFC/BaseComponents/EventHandler/src/event_handler.c:657-685 | Each event taken is fired once, parked once or the one that was dropped, whatever callbacks exist |
| FlightMode.FlightModeHandler.ChangeFMode | QuadFC/Components/FlightModeHandler/src/flight_mode_handler.c:73-83 | Enters and announces the mode exactly if the change is allowed |
| FlightMode.FlightModeHandler.HandleRequest | QuadFC/Components/FlightModeHandler/src/flight_mode_handler.c:162-176 | Announces an accepted change to everybody; answers a rejected one to its sender with the mode that stays |
| FlightMode.OneRequest | QuadFC/Components/FlightModeHandler/src/flight_mode_handler.c:93-160 | The modes that one request can lead to in each mode, all of them and no other |
| FlightMode.RunAnswers | QuadFC/Components/FlightModeHandler/src/flight_mode_handler.c:73-192 | In every run, however it is interleaved, the mode follows from the requests and faults taken, in the order in which they are taken |
| FlightMode.Arms | QuadFC/Components/FlightModeHandler/src/flight_mode_handler.c:105-128 | In every run in which a disarmed craft takes requests for arming and armed, it is armed |
| FlightMode.Disarms | QuadFC/Components/FlightModeHandler/src/flight_mode_handler.c:96-142 | In every run in which a craft that is armed, arming, being configured or initialised takes requests for disarming and disarmed, it is disarmed |
| FlightMode.LeavesFault | QuadFC/Components/FlightModeHandler/src/flight_mode_handler.c:142-154 | In every run in which a craft in a fault takes requests to exit the fault, for disarming and disarmed, it is disarmed |
| FlightMode.EndsInFault | QuadFC/Components/FlightModeHandler/src/flight_mode_handler.c:85-90 | A run in which a fault is taken last ends in the fault, from every mode |
| FlightMode.RcHandler.UpdateState | QuadFC/Components/SpectrumToStateHandler/src/Satellite_SetpointHandler.c:178-218 | Requests what the stick asks for given the cached mode, and takes it for granted |
| FlightMode.StepTracking | QuadFC/Components/SpectrumToStateHandler/src/Satellite_SetpointHandler.c:178-263 | Every step keeps: a request of the RC handler is under way, or the last message to it has the current mode, or it has the current mode |
| FlightMode.RunTracking | QuadFC/Components/SpectrumToStateHandler/src/Satellite_SetpointHandler.c:178-263 | It holds after every run of requests, rejections, faults and deliveries |
| FlightMode.CachedModeConverges | QuadFC/Components/SpectrumToStateHandler/src/Satellite_SetpointHandler.c:254-263 | With nothing of its own under way the cached mode is the current mode |
| FlightMode.DeliveryConverges | QuadFC/Components/FlightModeHandler/src/flight_mode_handler.c:162-192 | From wherever a run has led, answering and delivering what is under way makes the cached mode current |
| FlightMode.HeldStick | QuadFC/Components/SpectrumToStateHandler/src/Satellite_SetpointHandler.c:186-216 | A stick held still makes at most one request before it is answered, two when leaving a fault |
| FlightMode.FlapUpDisarms | QuadFC/Components/SpectrumToStateHandler/src/Satellite_SetpointHandler.c:186-216 | With the flap up and the throttle low an armed craft is disarming after one frame and disarmed when that is granted, after two frames from a fault; a disarmed one stays so |
| FlightMode.FlapDownArms | QuadFC/Components/SpectrumToStateHandler/src/Satellite_SetpointHandler.c:186-216 | With the flap down and the throttle low a disarmed craft is arming after one frame and armed when that is granted; in every other mode, and with any other stick, nothing happens |
| FlightMode.FlapUpNeverArms | QuadFC/Components/SpectrumToStateHandler/src/Satellite_SetpointHandler.c:186-216 | In every run in which the flap stays up the RC handler makes no request to arm |
| FlightMode.ArmedAfterFault | QuadFC/Components/FlightModeHandler/src/flight_mode_handler.c:93-160 | Every run that is armed after a fault went through exit, disarming and disarmed, in that order, in between |
| BinaryStream.BinaryIStream.Read | QuadGS/Common/BinaryStream/BinaryStream.h:119-253 | On all three paths a read returns the next bits, most significant first, in the low bits of the result and goes on after them; a refused read changes nothing |
| BinaryStream.BinaryIStream.ReadBytes | QuadGS/Common/BinaryStream/BinaryStream.h:143-163 | The aligned path |
| BinaryStream.BinaryIStream.ReadWithin | QuadGS/Common/BinaryStream/BinaryStream.h:172-193 | The path inside one byte |
| BinaryStream.BinaryIStream.ReadAcross | QuadGS/Common/BinaryStream/BinaryStream.h:194-250 | The path across bytes |
| BinaryOutput.WriteRight | QuadGS/Common/BinaryStream/BinaryStream.h:387-501 | A field that fits the current byte, ends on a byte boundary or is whole bytes long is appended exactly, and the unused bits stay zero |
| BinaryOutput.WriteWrong | QuadGS/Common/BinaryStream/BinaryStream.h:440-498 | Every other field is written wrongly, for one if it is all ones |
| BinaryOutput.FaithfulWidths | QuadGS/Common/BinaryStream/BinaryStream.h:387-501 | A width is written faithfully for all values if and only if it is one of the three kinds |
| BinaryOutput.BinaryOStream.Write | QuadGS/Common/BinaryStream/BinaryStream.h:387-501 | The method on vector and bit index computes the write function on all three paths, faithful or not |
| BinaryOutput.BinaryOStream.PutAcross | QuadGS/Common/BinaryStream/BinaryStream.h:440-498 | The path across bytes, step by step as in the code |
| BinaryRoundTrip.LowBitsValue | QuadGS/Common/BinaryStream/BinaryStream.h:387-501 | The low w bits of a word are its value modulo 2^w |
| BinaryRoundTrip.RoundTrip | QuadGS/Common/BinaryStream/BinaryStream.h:119-501 | Any sequence of faithful writes read back with the same widths gives every value modulo 2^width |
| LogRing.RecordDecodes | QuadFC/Components/LogMemBackend/src/log_mem_backend.c:81-86 | A log record decodes to the entry it was made from |
| LogRing.RecordLayout | QuadFC/Components/LogMemBackend/src/log_mem_backend.c:81-86 | At which octets of a record data, identifier and time lie, a negative number in two's complement |
| LogRing.LogBackend.Report | QuadFC/Components/LogMemBackend/src/log_mem_backend.c:68-99 | Appends the entry, dropping the oldest if full, and touches no memory outside the region; a failing write loses only what was dropped |
| LogRing.LogBackend.GetLog | QuadFC/Components/LogMemBackend/src/log_mem_backend.c:101-131 | Returns and removes the oldest unread entries, as many as wanted, available and answered by the memory |
| LogRing.SlidingWindow | QuadFC/Components/LogMemBackend/src/log_mem_backend.c:68-131 | After any run the unread entries are the reported ones from the first not yet read or overwritten on |
| LogRing.ReadsInOrder | QuadFC/Components/LogMemBackend/src/log_mem_backend.c:101-131 | A read returns consecutive reported entries, none twice and none left out but overwritten ones |
| FixedMath.MySquareRoot | QuadFC/Components/Utilities/src/my_math.c:136-168 | For every 32-bit n the result is 256 times the integer square root, both loops end and no value leaves 32 bits |
| FixedMath.TakeDigit | QuadFC/Components/Utilities/src/my_math.c:152-158 | The comparison in the loop decides exactly whether the next binary digit belongs to the root |
| FixedMath.RootIsUnique | QuadFC/Components/Utilities/src/my_math.c:136-168 | There is only one integer square root |
| FixedMath.FixedPointRoot | QuadFC/Components/Utilities/src/my_math.c:163-167 | As 16.16 numbers: r*r <= n*2^16 < (r+256)*(r+256) |
| Atan2.LutGrows | QuadFC/Components/Utilities/src/my_math.c:78-99 | The table rises in steps of at most 326 |
| Atan2Accuracy.TableStep | QuadFC/Components/Utilities/src/my_math.c:78-99 | Each step of the table is the step of the arc tangent to within one unit |
| Atan2Accuracy.TableIsArc | QuadFC/Components/Utilities/src/my_math.c:78-99 | Each entry of the table is within one unit of the tangents between the rays of the table summed up to it, at 41721.5 units a radian |
| Atan2Accuracy.LerpNear | QuadFC/Components/Utilities/src/my_math.c:118-127 | What is read from the table for a slope is its arc to within 2.64 units and what the slope is cut off by |
| Atan2Accuracy.ArcBetween | QuadFC/Components/Utilities/src/my_math.c:78-99 | The arc between any two slopes lies between sine times cosine of the angle between them and its tangent and a sixteen thousandth |
| Atan2.OctantifyTurns | QuadFC/Components/Utilities/src/my_math.c:54-59 | The macro turns every vector into 0 <= y < x and counts its geometric octant |
| Atan2.OctantifyKeepsCross | QuadFC/Components/Utilities/src/my_math.c:54-59 | Turning keeps which of two vectors of an octant lies to the left |
| Atan2.LerpRises | QuadFC/Components/Utilities/src/my_math.c:122-127 | Interpolation keeps the order of its arguments, across table steps too |
| Atan2.AngleInOctant | QuadFC/Components/Utilities/src/my_math.c:103-128 | The angle is below a full turn and its top bits are the geometric octant |
| Atan2.AngleGrows | QuadFC/Components/Utilities/src/my_math.c:103-128 | In one octant a vector that does not lie to the right of another has no smaller angle |
| Atan2.AngleGrowsWithOctant | QuadFC/Components/Utilities/src/my_math.c:103-128 | A vector of a later octant has a larger angle |
| Atan2Accuracy.AngleIsArc | QuadFC/Components/Utilities/src/my_math.c:103-128 | The result is the exact angle of the first ray of the octant and the arc of the slope above it, to within two units of a full turn of 131072 and what the slope is cut off by |
| Atan2Accuracy.SlantsApart | QuadFC/Components/Utilities/src/my_math.c:54-59 | Turning into the first half quadrant keeps the angle between two vectors of an octant: its tangent and its sine times cosine |
| Atan2Accuracy.FanAngle | QuadFC/Components/Utilities/src/my_math.c:103-128 | For every fan of vectors of an octant, however fine, the angles given to its first and last vector differ by no less than sine times cosine between neighbours summed up and no more than the tangents, at 20860.75 units a radian, but for a sixteen thousandth, 2.5 units and what the slopes are cut off by |
| Atan2.Atan2Lerp | QuadFC/Components/Utilities/src/my_math.c:103-128 | In 32-bit words, on exactly the vectors whose turning does not overflow: all table indices are in range and the result is the angle |
| MessagePool.Pool.constructor | QuadFC/BaseComponents/MessagePool/src/MessagePool.c:46-69 | All slots are free and linked into one ring |
| MessagePool.Pool.Acquire | QuadFC/BaseComponents/MessagePool/src/MessagePool.c:71-90 | Fails only if the size is too large or every slot is held; otherwise hands out the first free slot after the last one and holds it |
| MessagePool.Pool.Release | QuadFC/BaseComponents/MessagePool/src/MessagePool.c:92-104 | Frees that slot and no other |
| MessagePool.Pool.Delete | QuadFC/BaseComponents/MessagePool/src/MessagePool.c:106-117 | Ends, deletes every slot exactly once in ring order and cuts every link |
| MessagePool.RotationIsRing | QuadFC/BaseComponents/MessagePool/src/MessagePool.c:106-117 | Going round from any slot visits each slot once |

## Left out

- Packetize: asks that the closing flag is reserved. The loop does not reserve it after a final
  escaped octet, so a frame that is one octet too long and ends so would be written past the packet.
- Parse: the parser function is exact on all inputs, but the delivery theorems speak of single
  octets and of one frame in pieces. A call that leaves more than the next frame in the ring, or
  brings new input when a complete frame is in it, overwrites the delivered payload.
- Serialize: excludes exactly the sizes for which the original writes past the end of the buffer:
  its space check does not count the header.
- Deserialize: returns None where the original returns a message with uninitialised fields.
- SerializeUint8: asks for four octets of room like the code, although it writes one.
- HandleSave: payloads above 239 octets overrun the serialization buffer or pass on a null cursor in
  the original; handlers send 200 at most.
- SaveThenLoad: the save is not interleaved with answers to set messages, which reset its state.
- SeriesEnds: sufficient; the exact conditions are proved where all subtrees can be left or each
  subtree is printed in one message. In between the end depends on where the messages happen to break.
- SaveCompletes: a sufficient condition on lengths; the exact one is SaveEndsIff.
- SaveTurn: asks, like Packetize, that the closing flag of the answer's frame is reserved.
- HandleGet: the message numbers are those of one handler; the master replaces them.
- AppendDumpFromHere: asks for at most eight levels; a deeper tree runs over the start indices.
- UpdateFromPrinted: the callback of a parameter and two nodes that share a variable are not
  modelled; the values are a map from tree positions.
- StrToLOfDecimal: strtol without overflow; the texts read have at most ten characters.
- WaitForEvent: the queue is given with all that arrives before the wait times out, and the tick
  counts are an input.
- RunConsistent: registration, parked subscription messages and the log messages sent when a queue
  is full are not steps of the run; parking can reorder announcements.
- ArmedAfterFault: the mode handler is initialised once, before the first step.
- Read: asks for enough bits; the original reads past the vector. Signed types and floating point
  are not modelled.
- FanAngle: the angle itself, which is not rational, is not defined; it is enclosed by the two sums.
- HandleSet: the answer to the master carries no data and is left out; the payload is read up to its
  null, whatever its length field says.
- Acquire: semaphores are booleans and slots are objects, so the check that a released pointer
  belongs to a slot is not modelled; neither is a failed allocation.
- The texts of the tree are values, not fixed-size character buffers, so updates in place and
  aliasing of the string helpers are not captured. Fc_itoa and Fc_atoi are not modelled.
- The get, set and HasParam branches of the master, generated messages other than ParamFc, and the
  serializer of state data, which walks one vector for two and ignores returned cursors.
- Pointer identity of payloads: cloned messages share their inner payload in the original; payloads
  are values here.
- Drivers, the real-time kernel, the command line, the plotter, the control loops and the filters.
