# The error-corrected, compressed data path of a soft modem

The soft modem in `slmodemd/` carries characters over a telephone line through a stack of protocols.
This project models that stack in Dafny and proves what it is for: the characters that go in at one
end come out at the other, once each and in order.

| layer | source | files |
|---|---|---|
| V.42bis compression | `slmodemd/modem_comp.c` | `Words`, `Bits`, `Codec`, `Transport`, `Lockstep`, `Lossless`, `Histories`, `Learning`, `Vectors`, `Links`, `Dictionary`, `Compressor`, `Session` |
| transmit ring and blocks for the link | `slmodemd/modem.c`, `slmodemd/modem_comp.c` | `Xmit`, `Burst`, `Outgoing` |
| LAPM, the go-back-N link protocol | `slmodemd/modem_ec.c` | `Lapm`, `LapmPeer`, `LapmLink`, `LapmEvents`, `LapmSafety`, `LapmRing`, `LapmFrames`, `LapmTimer`, `LapmClock`, `LapmRecovery`, `LapmRounds`, `LapmTakenBack`, `LapmStandstill`, `LapmRelease`, `LapmWire`, `LapmSlots`, `LapmPair`, `LapmSource` |
| XID negotiation | `slmodemd/modem_ec.c` | `Xid` |
| HDLC framing and FCS-16 | `slmodemd/modem_pack.c` | `Fcs`, `Hdlc`, `HdlcRoundTrip`, `HdlcSound`, `Registers`, `HdlcPacker`, `HdlcLink` |
| LAPM frames over HDLC | `slmodemd/modem_ec.c`, `slmodemd/modem_pack.c` | `LapmHdlc` |
| start-stop framing | `slmodemd/modem_pack.c` | `Async`, `AsyncPacker`, `AsyncLink` |
| CRC-32 | `pjproject-2.11.1/pjlib-util/src/pjlib-util/crc32.c` | `Crc32` |
| the whole data path | | `Stack` |

`dafny verify dfyconfig.toml` checks the whole project.

## How it is built

Each layer has two halves.  One is a specification on values: functions on datatypes, with the
laws proved as lemmas.  The other is the program's own form: a class with the fields of the C
structure, methods with its loops, and arrays, rings and 32-bit shift registers updated in place.
Each method is proved to do to the fields what the specification does to the values they stand for.
So the laws hold of the objects, and the methods `Session.Transfer`, `Outgoing.Serve`,
`LapmPair.Converse`, `HdlcLink.Relay`, `AsyncLink.Relay` and `Crc32.CalcPieces` state them again on
objects that they create and drive, and say which run the objects have gone through.  `Stack.Carry`
drives ring, encoder, two connected LAPM ends and decoder from one sequence of events, and
`LapmHdlc.Transmit` two connected LAPM ends and an HDLC transmitter and receiver.

The main results:

* **V.42bis is lossless** (`Lossless.Lossless`, `Session.Transfer`).  Any buffers, any flushes and any
  outcome of the compression test: the decoder never reports an error, has at all times a prefix of
  the input, and has all of it after a flush.  The proof follows every codeword bit by bit through
  the octets, and keeps both dictionaries in lockstep: at every turn of the encoder in every history
  they differ by at most one pending insertion, every codeword that may be sent is known, and at
  every ECM, ETM and FLUSH they are equal (`Histories`).  The dictionary,
  an array of entries linked by `parent`, `child` and `next`, is proved to represent a prefix-closed
  set of numbered strings, and its recovery scan never frees the entry just added
  (`Words.ScanLeavesNew`).
* **V.42bis learns and is greedy** (`Learning`), in terms of strings alone.  At every point of every
  history, a string that waits for the character after it is in the dictionary so extended one turn later,
  at the slot that was free, and nothing else is (`Learning.AlwaysLearns`); the decoder learns the same from
  codewords and from characters (`Learning.CodewordTeaches`, `Learning.LiteralTeaches`).  Each string sent is
  the longest beginning of what is left that is stored and does not run through the entry added last
  (`Learning.LongestString`), and encoding is sending one such string after the other
  (`Learning.CollectEncodes`).  `Vectors` has octets for inputs that can be followed by hand.
* **LAPM is safe** (`LapmSafety.PrefixSafety`).  Two peers over lines that lose frames, with every
  history of acknowledgements, rejections, busy conditions, polls, timeouts and disconnections: what
  one end has handed to its consumer is a prefix of what the other end took from its source.
* **A frame being transmitted** (`LapmFrames`).  A slot of the control ring is never rewritten while the
  HDLC transmitter reads it.  For the information ring this is not so: a reset does not wait for
  the transmitter, and after enough resets the slot is filled anew.  `LapmFrames.SlotSafe` gives the
  exact number of resets that a slot survives (always at least one), and
  `LapmFrames.TwoResetsRewrite` a history with two that overwrites the characters being sent.
* **LAPM gives up in bounded time** (`LapmTimer.GivesUp`, `LapmTimer.GivesUpInTime`), with the exact
  number of expiries.
* **Recovery after a loss** (`LapmRounds.RoundRecovers`, `LapmRounds.Converges`).  After any history, when
  everything under way has been lost, the receiver is not busy, retries are left, and the sender does
  not hold the receiver for busy with T401 stopped: a poll and its answer (if T401 runs) and one
  information frame bring the receiver forward if and only if V(S) has not been taken back behind the
  frame that it waits for; and without further loss at most 15 frames always do.  The code
  releases only frames sent since V(S) was last taken back, so an N(R) beyond V(S), which is
  legitimate, is not acknowledged in full, and sending resumes with a frame already taken;
  `LapmTakenBack.RejectionFallsShort` is such a history.  The duplicate is refused and nothing is lost.
* **The link can fall silent for good** (`LapmStandstill`).  An RNR command sets `peer_busy` without
  starting T401, and its N(R) may stop T401.  If the one RR that ends the busy condition is then lost,
  the sender sends nothing until it hears from the other end: `LapmStandstill.ComesToStandstill` is such a history of two ends just
  connected, after which both are connected and idle for ever, although one has a frame that the other
  waits for.  `LapmStandstill.SpeaksUnlessHeld` gives the exact condition after any history: with
  everything under way lost and a frame awaited, the sender transmits at its next request or expiry if
  and only if it is not the case that `peer_busy` is set and T401 is stopped.  It rests on an invariant of all
  histories, that T401 runs while anything is outstanding (`LapmClock.TimerRuns`).
* **Hanging up** (`LapmRelease`).  After any history, once nothing is under way, DISC and UA leave both ends
  idle with T401 stopped (`LapmRelease.ReleasesAlways`), and they can connect again
  (`LapmRelease.ConnectsAgain`), afresh if and only if nothing was left to hand over: a reset keeps the rest of
  a busy receiver, which is then handed over in the new connection.  Under any frames whatever T401 goes on
  running while a peer awaits the answer to its SABME or DISC, so that it gives up in bounded time
  (`LapmRelease.HungUpGivesUp`), with exactly one exception (`LapmRelease.NextAlarmed`): the answer to
  an earlier XID command stops T401 in every state.  `LapmRelease.HungUpWhileNegotiating` is a history
  after which a peer waits for ever.
* **The whole data path** (`Stack.Carry`).  Two ends are connected by XID, SABME and UA; the terminal
  writes, the link runs with any losses, and draws compressed blocks exactly when it asks for them.  What
  has arrived at the other end decodes without error to a prefix of what was accepted from the terminal,
  and to all of it once everything that the link has taken has arrived and the last block was not full.
* **LAPM over HDLC** (`LapmHdlc.Transmit`).  Whatever history a connected end goes through, each frame
  that it gives to its HDLC transmitter has octets and fits a frame (`LapmSlots.NextSlots`), and the
  receiver at the other end of the bits hands over the same frames in the same order.
* **HDLC round trip** (`HdlcRoundTrip.RoundTrip`, `HdlcLink.Relay`) for every sequence of frames of 1 to
  510 octets and every grouping of the bits on either side.
* **No damaged frame is handed over** (`HdlcSound.OnlyGoodFrames`, `HdlcLink.Hear`).  Whatever bits arrive, the
  frames handed over stand on the line in their order, each between two flags with its own check octets
  behind it and nothing else; octets between two flags are a frame if and only if they end in their
  check octets (`HdlcSound.HandedOver`), so a frame damaged in two neighbouring octets is dropped
  (`HdlcSound.DamagedIsDropped`).
* **XID** (`Xid.NegotiationAgrees`): both ends hold the same sizes after a command and its response,
  exactly unless a size of the first end overflows its field to a value below the default while the
  second end is below it too; `Xid.OverflowDisagrees` is such a case.  The shipped configuration cannot
  come to it: `slmodemd/modem.c:1087-1090` sets every size to its default, which no proposal changes
  (`Stack.ShippedStays`).  Both ends always come out with the same request for compression; with it on they
  hold the same dictionary size and string length if and only if one end's suit the other or they were the
  same (`Xid.CompAgrees`), and `Xid.CompParts` is a case in which they do not.
* **Nothing is lost before the encoder** (`Outgoing.Serve`).  Over any writes and any requests for blocks
  of 128, each accepted character goes through the encoder once and in order, and at every moment what a
  decoder makes of the blocks is a prefix of what was accepted, and all of it after a block that is not
  full.  `modem_comp_encode` drops the character it is given when a whole block is ready already;
  `Outgoing.Outgoing.GetChars` states exactly when, and the bound on what one call can emit
  (`Burst.EncodeBound`) shows that it never is with blocks of 128.  With blocks of one octet it can be:
  `Outgoing.AboutToDrop` is an object that is about to drop a character.

Where the code and its comments disagree the model follows the code.  The comment on the check of
N(R) in `ack_info` names a range, but its first two comparisons are always true; what keeps an unsent
frame from being released is the test for an empty list in the loop (`LapmRing.ReleaseExact`).

Outside events are parameters: the characters that a source gives, how many of them a consumer
takes, how many bits go by, and the outcome of the compression test (`choices`).

## Model

| member | source | states |
|---|---|---|
| Words.ScanLeavesNew | slmodemd/modem_comp.c:179-194 | the recovery scan ends on an entry other than the one just added: otherwise the at least 253 slots would hold distinct prefixes of one string of at most 250 characters |
| Words.Recycled | slmodemd/modem_comp.c:179-194 | the entry freed is a leaf, and neither the new entry nor the one it extends |
| Words.AddSpec | slmodemd/modem_comp.c:167-196 | adding keeps the strings a prefix-closed forest of bounded depth with distinct numbers, stores exactly the new string, and frees exactly one other slot |
| Words.AddKeeps | slmodemd/modem_comp.c:167-196 | every other entry keeps its string |
| Links.ChildIffExtended | slmodemd/modem_comp.c:182-182 | an entry has a child link exactly if some stored string extends its string |
| Links.ExtensionListed | slmodemd/modem_comp.c:152-164 | every stored extension of a string is in the child list of that string |
| Links.InsertRep | slmodemd/modem_comp.c:171-176 | linking an entry at the head of a child list represents the set with the new string: every entry in exactly one list, siblings distinct |
| Links.RemoveRep | slmodemd/modem_comp.c:183-193 | unlinking a leaf represents the set without its string |
| Dictionary.Dictionary.Clear | slmodemd/modem_comp.c:128-136 | the array represents the empty set of strings |
| Dictionary.Dictionary.MatchChar | slmodemd/modem_comp.c:152-164 | exact lookup: the number of the extended string, 0 if and only if it is not stored |
| Dictionary.Dictionary.FindLeaf | slmodemd/modem_comp.c:178-182 | the loop terminates, on the first leaf after the new entry |
| Dictionary.Dictionary.Unlink | slmodemd/modem_comp.c:183-193 | the search in the sibling list terminates, and only the links of that list change |
| Dictionary.Dictionary.Recycle | slmodemd/modem_comp.c:178-194 | the array represents the set of strings without the recycled one |
| Dictionary.Dictionary.AddChar | slmodemd/modem_comp.c:167-196 | returns the slot that was free, and the array represents the set after adding and recycling |
| Compressor.Compressor.constructor | slmodemd/modem_comp.c:721-747 | a fresh encoder: empty dictionary, transparent mode, nine-bit codewords |
| Compressor.Compressor.SendCw | slmodemd/modem_comp.c:431-432 | appends the bits of the codeword; at most 32 bits are held |
| Compressor.Compressor.AlignBits | slmodemd/modem_comp.c:433-434 | appends zeros only, up to an octet boundary |
| Compressor.Compressor.SendBits | slmodemd/modem_comp.c:435-439 | emits the whole octets in order and keeps the fewer than eight bits left |
| Compressor.Compressor.SendTransparent | slmodemd/modem_comp.c:454-466 | emits the string with EID after every escape character, and moves the escape character each time |
| Compressor.Compressor.CycleEscape | slmodemd/modem_comp.c:469-474 | the escape character moves as if the string had been sent transparently |
| Compressor.Compressor.SendCodeword | slmodemd/modem_comp.c:475-486 | the codeword fits its width when sent, after as many STEPUPs as needed; the threshold stays the power of two of the width |
| Compressor.Compressor.SendData | slmodemd/modem_comp.c:444-492 | the string collected goes out in the current mode and nothing of it is left |
| Compressor.Compressor.ResolveUpdate | slmodemd/modem_comp.c:584-592 | the pending entry is extended by the next character unless that string is stored |
| Compressor.Compressor.OfferChar | slmodemd/modem_comp.c:595-616 | one turn of string matching: the string ends before the character, goes on, or is complete with it |
| Compressor.Compressor.TestMode | slmodemd/modem_comp.c:495-541 | the mode changes exactly if the ratio is beyond the limit of the present mode, after the pending string has been sent and the octet filled; otherwise nothing changes |
| Compressor.Compressor.FlushEncoder | slmodemd/modem_comp.c:544-573 | the specified flush, and nothing while an extension is pending |
| Compressor.Compressor.EncodeTurn | slmodemd/modem_comp.c:583-619 | one turn of the loop, with the compression test made exactly where a string ended or the buffer is used up |
| Compressor.Compressor.Encode | slmodemd/modem_comp.c:578-651 | emits what the specified encoder emits for some outcomes of the test, and ends in its state |
| Compressor.Compressor.SendString | slmodemd/modem_comp.c:207-220 | the string held back is delivered |
| Compressor.Compressor.FlushDecoder | slmodemd/modem_comp.c:242-252 | all characters decoded are delivered, and the state is otherwise unchanged |
| Compressor.Compressor.ReceiveString | slmodemd/modem_comp.c:223-239 | walking the parents twice yields the string of the codeword |
| Compressor.Compressor.LearnUpdate | slmodemd/modem_comp.c:306-322 | the decoder's dictionary update for the first character of the string received |
| Compressor.Compressor.ReceiveCodeword | slmodemd/modem_comp.c:299-340 | false exactly where the code reports an error; otherwise the string of the codeword and the specified state |
| Compressor.Compressor.ProcessCodeword | slmodemd/modem_comp.c:277-341 | control and data codewords do what the specification says, including the error for an excessive width |
| Compressor.Compressor.TakeCodeword | slmodemd/modem_comp.c:272-274 | the low bits of the buffer are the codeword and the rest stays in order |
| Compressor.Compressor.ReadOctets | slmodemd/modem_comp.c:264-270 | octets are taken only until a codeword is complete |
| Compressor.Compressor.LiteralTurn | slmodemd/modem_comp.c:384-416 | a transparent character goes through the same matcher as in the encoder |
| Compressor.Compressor.DictInit | slmodemd/modem_comp.c:128-149 | the decoder is as fresh, and what was delivered stays |
| Compressor.Compressor.TransparentTurn | slmodemd/modem_comp.c:343-417 | escape commands, an error for an unknown one, and literals |
| Compressor.Compressor.Decode | slmodemd/modem_comp.c:255-423 | false exactly where the specified decoder fails; otherwise delivered and held-back characters together are what it decodes |
| Transport.EscapedString | slmodemd/modem_comp.c:454-466 | a decoder in transparent mode reads an escaped string back, and its matcher takes the same characters |
| Transport.CodeArrives | slmodemd/modem_comp.c:264-274 | a codeword packed by the encoder is the codeword that the decoder unpacks, wherever the octet boundaries fall |
| Transport.AlignedArrives | slmodemd/modem_comp.c:279-289 | after FLUSH and ETM the decoder drops zero padding only, and both sides are at an octet boundary |
| Transport.DataArrives | slmodemd/modem_comp.c:475-486 | widening on both sides stays equal across any number of STEPUPs |
| Lossless.StepAgrees | slmodemd/modem_comp.c:583-617 | offering a character keeps encoder and decoder in step and loses, repeats and reorders nothing |
| Lossless.SwitchAgrees | slmodemd/modem_comp.c:495-541 | so does a change of mode, at any point where the code makes one |
| Lossless.EncodeAgrees | slmodemd/modem_comp.c:578-651 | so does encoding a buffer, for every outcome of the compression test |
| Lossless.FlushAgrees | slmodemd/modem_comp.c:544-573 | after a flush nothing is in flight |
| Lossless.RunAgrees | slmodemd/modem_comp.c:578-651 | over any history of calls the output is the input short of what is in flight |
| Lossless.Lossless | slmodemd/modem_comp.c:544-651 | the decoder accepts every octet, its output is a prefix of the input, and the whole input after a flush |
| Histories.TurnsEncode | slmodemd/modem_comp.c:583-619 | every turn of the loop is a point from which the rest of the buffer is encoded |
| Histories.OnePendingAlways | slmodemd/modem_comp.c:584-611 | at every turn of every history in compressed mode the dictionaries are equal, or differ by the one insertion that the decoder makes for the string being collected, whose entry is not yet matched |
| Histories.CodewordsKnownAlways | slmodemd/modem_comp.c:299-328 | at every turn of every history the codewords that may be sent stand for the same strings at the decoder, before and after its insertion, and are never its free slot |
| Histories.ModeChangeEqualizes | slmodemd/modem_comp.c:495-541 | at every ECM and ETM of every history the dictionaries and the escape characters are equal |
| Histories.FlushEqualizesAlways | slmodemd/modem_comp.c:544-573 | at every FLUSH of every history the dictionaries, the pending entry and the escape characters are equal |
| Learning.AddLearns | slmodemd/modem_comp.c:167-196 | adding stores the extended string at the free slot, keeps every other string but at most one, which nothing extends, and gains none |
| Learning.FreesFirstLeaf | slmodemd/modem_comp.c:178-182 | the slot freed is the first after the new one, going round, that nothing extends |
| Learning.StepGreedy | slmodemd/modem_comp.c:595-616 | the string goes on with a character if and only if the longer string is stored and is not the entry added last; it is complete only at the maximum length; and cut before a character it waits for it unless that extension is known |
| Learning.LongestString | slmodemd/modem_comp.c:584-616 | from where a string starts: the string before it is learned, extended by the first character, and the string collected is the longest beginning of what is left that may be sent |
| Learning.StringGoesOut | slmodemd/modem_comp.c:444-492 | a string that has ended goes out as its codeword, or as its characters |
| Learning.CollectEncodes | slmodemd/modem_comp.c:578-619 | encoding a buffer is collecting and sending one string after the other with a test after each |
| Learning.CutShortWaits | slmodemd/modem_comp.c:504-573 | a string cut short by a change of mode or a flush waits for the character after it |
| Learning.CodewordTeaches | slmodemd/modem_comp.c:306-322 | the decoder stores the string received before, extended by the first character of this one, and nothing else; this one waits for the next unless it has the maximum length |
| Learning.LiteralTeaches | slmodemd/modem_comp.c:388-416 | in transparent mode whatever was pending, or the string that ends before the character, is extended by it |
| Learning.AlwaysLearns | slmodemd/modem_comp.c:584-592 | at every turn of every history a pending string is learned with the character that follows it |
| Vectors.TwoCharacters | slmodemd/modem_comp.c:495-573 | the character 97, a change of mode, 97 again and a flush are the octets 97 0 0 100 2 0 |
| Vectors.SecondCharacter | slmodemd/modem_comp.c:584-592 | the first string learned gets the number 259 |
| Vectors.EscapedOctets | slmodemd/modem_comp.c:454-466 | the escape character goes from 0 by 51 each time that it is sent, followed by 1 |
| Vectors.AlignedOctets | slmodemd/modem_comp.c:431-439 | ETM is codeword 0 and FLUSH codeword 1, lowest bit first and filled up with zeros |
| Vectors.EscapeCommands | slmodemd/modem_comp.c:343-383 | after the escape character 0 enters compressed mode, 1 is the escape character itself, 2 starts afresh, and anything else is an error |
| Vectors.DecoderRejects | slmodemd/modem_comp.c:277-341 | a codeword is an error if and only if it is a STEPUP beyond what the dictionary can need, or one of the two slots free before and after learning |
| Session.Transfer | slmodemd/modem_comp.c:242-651 | two objects: any writes with any flushes of encoder and decoder between them come out exactly |
| Xmit.Xmit.Write | slmodemd/modem.c:1850-1867 | accepts as many characters as there is room for, in order behind those waiting, across the end of the buffer |
| Xmit.Xmit.GetChars | slmodemd/modem.c:900-921 | gives out the oldest characters in order, as many as asked for if there are as many |
| Burst.DataBound | slmodemd/modem_comp.c:475-486 | a data codeword with all its STEPUPs is at most 14 octets |
| Burst.EncodeBound | slmodemd/modem_comp.c:578-651 | encoding one character emits at most twice the maximum string and 22 octets |
| Burst.FlushBound | slmodemd/modem_comp.c:544-573 | so does a flush |
| Outgoing.EncodeCarried | slmodemd/modem_comp.c:845-854 | a decoder of the octets stays in step when a character is encoded |
| Outgoing.FlushCarried | slmodemd/modem_comp.c:867-876 | after a flush a decoder of the octets has every character taken in |
| Outgoing.Outgoing.GetOData | slmodemd/modem_comp.c:829-843 | hands out the oldest octets and keeps the others in order |
| Outgoing.Outgoing.EncodeChar | slmodemd/modem_comp.c:845-854 | the character is encoded if and only if fewer octets than asked for were ready |
| Outgoing.Outgoing.FlushChars | slmodemd/modem_comp.c:867-876 | no character is consumed, and a block that is not full means that a decoder has everything |
| Outgoing.Outgoing.GetChars | slmodemd/modem.c:946-969 | all characters fetched are encoded, except that one is lost when a full block was ready beforehand; a short block means an empty ring and a complete decoder |
| Outgoing.Serve | slmodemd/modem.c:946-969 | over any requests with blocks of 128, each served as the log says: the blocks are what the encoder emits for the characters accepted, in order and each once, and at every moment what a decoder makes of them is a prefix of what was accepted, and all of it when the last block was not full and nothing was accepted since |
| Outgoing.NoSingleOctet | slmodemd/modem_comp.c:454-466 | character 0, the first escape character, needs more than one octet |
| Outgoing.AboutToDrop | slmodemd/modem_comp.c:845-854 | with blocks of one octet an object is reached that has a whole block ready and a character waiting, which the next block drops |
| LapmPeer.LapmPeer.constructor | slmodemd/modem_ec.c:1344-1363 | an idle peer with empty rings, the addresses of its side and the sizes of its configuration |
| LapmPeer.LapmPeer.TxCtrl | slmodemd/modem_ec.c:379-407 | a control frame is queued in order, or dropped when only the reserved slot is free |
| LapmPeer.LapmPeer.TxSuper | slmodemd/modem_ec.c:410-422 | a supervisory frame carries the present receive count |
| LapmPeer.LapmPeer.Disconnect | slmodemd/modem_ec.c:1281-1288 | the peer polls with DISC and restarts T401 |
| LapmPeer.LapmPeer.Connect | slmodemd/modem_ec.c:1250-1266 | an idle peer forgets everything, asks with SABME and starts T401; any other peer does nothing |
| LapmPeer.LapmPeer.HeedXid | slmodemd/modem_ec.c:509-548 | sizes and compression parameters after a received XID frame; nothing changes if it is refused |
| LapmPeer.LapmPeer.TxXid | slmodemd/modem_ec.c:550-636 | an XID frame with the present sizes is queued |
| LapmPeer.LapmPeer.Configure | slmodemd/modem_ec.c:1269-1279 | a connected peer turns busy and says so; the XID command goes out with T401 running |
| LapmPeer.LapmPeer.Configured | slmodemd/modem_ec.c:1117-1130 | the response ends the negotiation; an idle peer connects, a connected one goes on |
| LapmPeer.LapmPeer.Reset | slmodemd/modem_ec.c:1291-1307 | counts are zero and unacknowledged frames are forgotten, but not the control queue nor the timer |
| LapmPeer.LapmPeer.TxInfo | slmodemd/modem_ec.c:706-744 | a frame is ready, or the window is full, the peer busy, the ring at its reserved slot or the source empty |
| LapmPeer.LapmPeer.RejectInfo | slmodemd/modem_ec.c:747-759 | in the data state sending starts again from the oldest unacknowledged frame |
| LapmPeer.LapmPeer.ReleaseFrames | slmodemd/modem_ec.c:776-785 | the loop terminates for every NR and stops at the last frame sent |
| LapmPeer.LapmPeer.AckInfo | slmodemd/modem_ec.c:762-799 | frames are released, and T401 stopped, or started again if frames are outstanding |
| LapmPeer.LapmPeer.RxInfo | slmodemd/modem_ec.c:827-883 | an information frame is refused when busy, rejected once when out of sequence, otherwise taken and answered |
| LapmPeer.LapmPeer.RxSuperCmd | slmodemd/modem_ec.c:887-943 | RR, RNR and REJ commands acknowledge, set the condition of the peer and answer polls |
| LapmPeer.LapmPeer.RxSuperRsp | slmodemd/modem_ec.c:945-990 | responses acknowledge and end polling; an unsolicited final response is ignored |
| LapmPeer.LapmPeer.RxUnnumCmd | slmodemd/modem_ec.c:995-1045 | SABME, DISC and XID commands |
| LapmPeer.LapmPeer.RxUnnumRsp | slmodemd/modem_ec.c:1047-1136 | UA, DM and XID responses, by state |
| LapmPeer.LapmPeer.Receive | slmodemd/modem_ec.c:1194-1245 | dispatch by kind, address and state of the link |
| LapmPeer.LapmPeer.GetTxFrame | slmodemd/modem_ec.c:1141-1170 | control frames go first; an information frame gets its numbers when it is given out, and T401 runs afterwards |
| LapmPeer.LapmPeer.Timeout | slmodemd/modem_ec.c:641-685 | a poll by state, or the XID command again, or giving up |
| LapmPeer.LapmPeer.Elapse | slmodemd/modem.c:602-605 | the timer expires when its bits have gone by, and only then |
| LapmPeer.LapmPeer.PushRest | slmodemd/modem_ec.c:803-824 | the rest is handed over in order, and the busy condition ends with it |
| LapmLink.ReleaseKeeps | slmodemd/modem_ec.c:776-785 | in unbounded numbers, V(A) moves to NR or to V(S), whichever comes first, and the ring still holds the frames from there on |
| LapmLink.AckKeeps | slmodemd/modem_ec.c:762-799 | an acknowledgement of frames sent never disconnects and changes nothing else but the timer |
| LapmLink.TxInfoKeeps | slmodemd/modem_ec.c:706-744 | a slot is filled only behind all frames sent, and neither an unacknowledged frame nor the one being transmitted is touched |
| LapmLink.TxCtrlKeeps | slmodemd/modem_ec.c:379-422 | queued control frames and the one being transmitted keep their contents |
| LapmEvents.ReceiveKeeps | slmodemd/modem_ec.c:1217-1245 | any frame of the other end keeps the invariant; the receive count moves exactly when a frame in sequence is taken |
| LapmEvents.GrantKeeps | slmodemd/modem_ec.c:1141-1170 | giving out a frame keeps the invariant and marks it with its place in the sequence |
| LapmEvents.TimeoutKeeps | slmodemd/modem_ec.c:641-685 | so does an expiry |
| LapmEvents.PushKeeps | slmodemd/modem_ec.c:803-824 | so does handing over the rest |
| LapmSafety.InSequence | slmodemd/modem_ec.c:840-854 | a frame whose number modulo 128 equals V(R) is the very frame that the receiver waits for |
| LapmSafety.StepFirstKeeps | slmodemd/modem_ec.c:706-990 | every event at either end keeps the invariant of the link |
| LapmSafety.PrefixSafety | slmodemd/modem_ec.c:706-990 | after every history, what either end has handed over is a prefix of what the other has taken in |
| LapmRing.ReleaseExact | slmodemd/modem_ec.c:776-785 | for any NR of any sender V(A) moves by exactly the number of frames released, and no unsent frame is released |
| LapmRing.AckCalm | slmodemd/modem_ec.c:762-799 | the disconnection in the acknowledgement check is never reached, whatever has been received before, XID frames included |
| LapmRing.HeedCalm | slmodemd/modem_ec.c:426-473 | no XID frame makes the window smaller than what is in the ring |
| LapmRing.NextQuiet | slmodemd/modem_ec.c:706-1288 | every event but the grant of a frame writes at most the next slot to fill, and that only out of a drained ring |
| LapmFrames.GrantRing | slmodemd/modem_ec.c:1141-1164 | giving out a frame keeps the ring in order, and the next slot to fill is never the one given out |
| LapmFrames.RingAlways | slmodemd/modem_ec.c:706-799 | under any frames whatever, XID included, the ring distance of the frames sent is V(S) - V(A) modulo 128, at most the distance of those filled, at most the window |
| LapmFrames.CtrlStable | slmodemd/modem_ec.c:379-389 | a control frame given out is never rewritten before the next one is asked for |
| LapmFrames.SlotFate | slmodemd/modem_ec.c:714-734 | an information slot is rewritten exactly when more slots are filled than lie before it, and each fill but one needs a reset |
| LapmFrames.SlotSafe | slmodemd/modem_ec.c:1291-1307 | a slot survives every history with at most that many resets if and only if they, and one fill more of a drained ring, do not reach it |
| LapmFrames.InfoStable | slmodemd/modem_ec.c:1141-1164 | the frame just given out survives any history with a single reset |
| LapmFrames.TwoResetsRewrite | slmodemd/modem_ec.c:995-1009 | a reachable history with two resets in which the characters being transmitted are overwritten |
| LapmTimer.TimeoutCounts | slmodemd/modem_ec.c:641-685 | an expiry uses up exactly one of those left and arms T401 again unless the peer has come to rest |
| LapmTimer.GivesUp | slmodemd/modem_ec.c:641-685 | hearing nothing, a peer comes to rest with exactly the expiry foretold, at most 7 from ESTAB, DISC or negotiation and 14 from DATA, with T401 running until then whatever is sent |
| LapmTimer.GivesUpInTime | slmodemd/modem.c:602-605 | in bits: not before the deadline, and surely once it has passed by the delay with which expiries are noticed |
| LapmRecovery.TimeoutPolls | slmodemd/modem_ec.c:675-684 | an expiry in the data state queues a poll with the receive count |
| LapmRecovery.PollAnswered | slmodemd/modem_ec.c:887-943 | a poll is answered by the condition and the receive count of the receiver |
| LapmRecovery.FinalResumes | slmodemd/modem_ec.c:957-987 | for every N(R) up to the highest frame ever sent: the frames before it that were sent since V(S) was last taken back are released, T401 is stopped, and sending resumes with frame N(R) if and only if N(R) is not beyond V(S), otherwise with V(S) |
| LapmRecovery.RejectResumes | slmodemd/modem_ec.c:975-982 | the same for a rejection |
| LapmRecovery.ResumedFrame | slmodemd/modem_ec.c:1150-1164 | the next frame given out carries the number and the characters of the frame resumed with |
| LapmRecovery.AwaitedFrameTaken | slmodemd/modem_ec.c:854-882 | the awaited frame is taken, the receive count moves by one, and what the consumer left is kept |
| LapmRecovery.OtherFrameRejected | slmodemd/modem_ec.c:840-852 | any other frame is refused, with a REJ for the awaited one the first time |
| LapmRecovery.ConditionHeard | slmodemd/modem_ec.c:887-990 | every supervisory frame sets the condition of the other end, but for a final response that was not asked for; RNR as a response starts T401 |
| LapmRecovery.CountHeard | slmodemd/modem_ec.c:827-990 | every numbered frame moves V(A) to its N(R), or to V(S) if that is lower |
| LapmRecovery.InfoAnswered | slmodemd/modem_ec.c:836-882 | what an information frame is answered with: RNR, RR, or a frame of the peer's own that carries the count |
| LapmRecovery.RejectedByCommand | slmodemd/modem_ec.c:920-930 | a rejection sent as a command makes the sender go back and stops T401, unless it is polling |
| LapmRecovery.CommandAnswered | slmodemd/modem_ec.c:900-937 | a command that is no poll is answered with the condition of the peer, unless it has a frame to send instead |
| LapmRounds.BusyEnds | slmodemd/modem_ec.c:803-824 | after any history with everything under way lost, a busy end whose consumer takes the rest and whose RR arrives is no longer taken to be busy, and has handed over all that it held |
| LapmRounds.RoundRecovers | slmodemd/modem_ec.c:641-990 | after any history, when everything under way has been lost, the other end is not busy, retries are left, and `peer_busy` is not set with T401 stopped: a poll and its answer, if T401 runs, and one information frame make the other end take the frame awaited, if and only if V(S) has not been taken back behind it |
| LapmRounds.Converges | slmodemd/modem_ec.c:641-990 | under the same conditions and without further loss, the frames from the one resumed with to the one awaited, at most 15, make the other end take the frame awaited |
| LapmClock.NextWatched | slmodemd/modem_ec.c:641-1288 | every event but the start of a negotiation keeps T401 running while anything is outstanding in the data state, whatever frames arrive |
| LapmClock.TimerRuns | slmodemd/modem_ec.c:1150-1164 | after every history of two ends, a connected end with frames outstanding has T401 running |
| LapmTakenBack.RejectionFallsShort | slmodemd/modem_ec.c:776-785 | from two ends just connected, a history in which a rejection for frame 3 makes the sender go back to frame 2 |
| LapmStandstill.ComesToStandstill | slmodemd/modem_ec.c:907-918 | from two ends just connected, a history after which both stand still, with T401 stopped on both sides, although the first has filled a frame that the second, not busy, waits for |
| LapmStandstill.StandsForever | slmodemd/modem_ec.c:706-713 | from there nothing ever changes, whatever time goes by and whatever is asked of either end, unless the second gets something to send or someone hangs up |
| LapmStandstill.HeldForever | slmodemd/modem_ec.c:1150-1153 | an end that has T401 stopped, the other end for busy and no control frame queued sends nothing, however long it waits |
| LapmStandstill.SpeaksUnlessHeld | slmodemd/modem_ec.c:790-797 | after any history, when everything under way has been lost and a frame is awaited: the sender transmits at its next request or expiry if and only if not both `peer_busy` is set and T401 stopped |
| LapmRelease.SabmeHeard | slmodemd/modem_ec.c:999-1011 | SABME connects in every state with all counts zero and T401 stopped, and is answered with UA |
| LapmRelease.DiscHeard | slmodemd/modem_ec.c:1017-1030 | DISC makes every state idle with T401 stopped and is answered with UA, but by an idle peer with DM |
| LapmRelease.UaHeard | slmodemd/modem_ec.c:1087-1110 | UA ends the waiting for it, connected or idle, with T401 stopped, and means nothing otherwise |
| LapmRelease.DmHeard | slmodemd/modem_ec.c:1051-1081 | DM by state: refused, released, or ignored |
| LapmRelease.AsksAgain | slmodemd/modem_ec.c:662-684 | an expiry repeats XID, SABME, DISC or the poll, and starts T401 again |
| LapmRelease.NextAlarmed | slmodemd/modem_ec.c:641-1288 | any event keeps T401 running while the answer to SABME or DISC is awaited, if and only if it is not the answer to an earlier XID command |
| LapmRelease.HungUpGivesUp | slmodemd/modem_ec.c:641-685 | after any frames of any sender, a peer that has been hung up or calls becomes idle with the expiry foretold, at most the seventh, if it hears nothing more |
| LapmRelease.HungUpWhileNegotiating | slmodemd/modem_ec.c:1117-1130 | a history of a new peer, hung up while it negotiates, after which it awaits UA with T401 stopped |
| LapmRelease.StaysForgotten | slmodemd/modem_ec.c:1250-1266 | such a peer does nothing until it hears a frame, is hung up again or negotiates: no time helps, and it cannot call |
| LapmRelease.Releases | slmodemd/modem_ec.c:1017-1110 | two connected ends with nothing under way: Hangup, DISC over the line and UA back leave both idle with T401 stopped |
| LapmRelease.ReleasesAlways | slmodemd/modem_ec.c:1017-1110 | so after every history of two ends that start afresh, with what was handed over still a prefix |
| LapmRelease.ConnectsAgain | slmodemd/modem_ec.c:1250-1307 | ends at rest connect again by SABME and UA; they start afresh if and only if nothing was left to hand over |
| LapmTimer.DeadlineBound | slmodemd/modem_ec.c:641-685 | a connection is given up after at most 806400 bits, anything else after at most 403200 |
| LapmWire.FrameOctets | slmodemd/modem_ec.c:64-105 | the octets of each kind of frame |
| LapmWire.ParseOctets | slmodemd/modem_ec.c:64-94 | every frame is recognised from its octets as what it is |
| LapmWire.XidOctets | slmodemd/modem_ec.c:509-636 | the XID frames queued are those built in Xid, and those received are taken apart as there |
| LapmSlots.NextSlots | slmodemd/modem_ec.c:379-1288 | after every event, XID and connecting included, every slot of both rings holds a frame with fields that fit their octets and at most 131 octets in all |
| LapmPair.StepFirst | slmodemd/modem_ec.c:1141-1245 | an event at one end of two objects does what the specified link does |
| LapmPair.NegotiateTerms | slmodemd/modem_ec.c:1031-1035 | an XID command and its response between two objects |
| LapmPair.Connect | slmodemd/modem_ec.c:1376-1381 | two new ends are connected by XID, SABME and UA, with empty rings, their counts zero, T401 stopped and the sizes and compression parameters that negotiation settles on; the sizes are equal when those of the caller fit their fields, the request is always the same, and the compression sizes are equal exactly if they are compatible |
| LapmPair.Converse | slmodemd/modem_ec.c:706-1288 | two connected objects, driven by any events: they come to where the specified run leads, and what either has handed over is a prefix of what the other has taken in |
| LapmSource.TakesWhatIsGiven | slmodemd/modem_ec.c:706-744 | a handler asks its source at most once, and takes what the source gives exactly when it asks |
| Xid.SettleIsMiddle | slmodemd/modem_ec.c:426-432 | the value settled on is the middle one of both proposals and the default |
| Xid.SettleIsSemilattice | slmodemd/modem_ec.c:426-432 | settling is commutative, associative and idempotent, and the default absorbs |
| Xid.GetBeVal | slmodemd/modem_ec.c:171-179 | the big-endian value of the octets, modulo 2 to the 32nd |
| Xid.ParseParams | slmodemd/modem_ec.c:434-473 | the parameters of the group one after the other, stopping at one that does not fit |
| Xid.ParsePrivateParams | slmodemd/modem_ec.c:476-505 | the same for the compression group |
| Xid.RxXid | slmodemd/modem_ec.c:509-548 | the groups one after the other; refused for another format identifier, which for a frame of two octets is what the buffer holds behind it |
| Xid.BuildParses | slmodemd/modem_ec.c:550-636 | taking a built frame apart gives every value back, modulo the width of its field |
| Xid.NegotiationAgrees | slmodemd/modem_ec.c:1031-1035 | after command and response both ends agree if and only if no size overflows to below the default with the other end below it; they agree on the value settled on if all sizes fit |
| Xid.HeedKeepsWindow | slmodemd/modem_ec.c:426-473 | whatever an XID frame says, the window does not become smaller than it was and than the default |
| Xid.OverflowDisagrees | slmodemd/modem_ec.c:582-585 | an information size of 8192 makes the ends differ |
| Xid.NeverTooLarge | slmodemd/modem.c:572-584 | compression is off if and only if either end wants none; a dictionary never grows, and sizes outside the limits are never taken over |
| Xid.CompAgrees | slmodemd/modem.c:572-584 | after command and response both ends have the same request, 0 exactly if either proposed none; with compression on the exact condition on both offers for the same dictionary size and string length |
| Xid.CompParts | slmodemd/modem_comp.c:749-762 | two offers of which neither suits the other end, so that both keep their own and compress |
| Xid.FrameOctets | slmodemd/modem_ec.c:550-636 | the octets of an XID frame with the default sizes |
| Fcs.TableIsDivision | slmodemd/modem_pack.c:348-388 | folding an octet by table is eight steps of division by the polynomial 0x8408 |
| Fcs.Residue | slmodemd/modem_pack.c:443-450 | a message followed by its complemented FCS leaves 0xf0b8, whatever the message |
| Fcs.GoodIsChecked | slmodemd/modem_pack.c:517-519 | octets leave the residue if and only if the last two are the check octets of those before |
| Fcs.DamageDetected | slmodemd/modem_pack.c:348-388 | any damage to two neighbouring octets is seen |
| Fcs.CheckOctets | slmodemd/modem_pack.c:443-450 | the check octets of 03 7f are 5f ae |
| Hdlc.NoSixOnes | slmodemd/modem_pack.c:395-412 | zero insertion leaves no six ones in a row |
| Hdlc.NoFlagInside | slmodemd/modem_pack.c:395-412 | no flag begins at a data bit |
| Hdlc.PassLocal | slmodemd/modem_pack.c:487-555 | a pass of the receiver depends on no bit beyond its lookahead of 18 |
| Hdlc.PutDrains | slmodemd/modem_pack.c:480-489 | a pass for each group of at most eight bits suffices: fewer than 18 bits are ever left |
| Hdlc.GroupingIrrelevant | slmodemd/modem_pack.c:480-570 | the receiver does the same however the bits are grouped |
| HdlcRoundTrip.DataPass | slmodemd/modem_pack.c:495-555 | a pass over data bits removes the inserted zeros and collects the octet |
| HdlcRoundTrip.DrainTracks | slmodemd/modem_pack.c:480-570 | a receiver at any place in the line delivers the frames that follow |
| HdlcRoundTrip.RoundTrip | slmodemd/modem_pack.c:395-573 | the frames delivered are those sent, from the first on and nothing else; all of them once 18 bits from their closing flag have arrived |
| HdlcSound.OnlyGoodFrames | slmodemd/modem_pack.c:472-573 | from any bits in any groups: every frame handed over stands on the line between two flags, with 1 to 510 octets and their check octets, and in order |
| HdlcSound.HandedOver | slmodemd/modem_pack.c:497-529 | up to 512 octets between two flags are handed over if and only if there are three at least and the last two are the check octets of the others |
| HdlcSound.DamagedIsDropped | slmodemd/modem_pack.c:517-519 | a frame damaged in one bit, or anyhow in two neighbouring octets, is not handed over, nor anything in its place |
| HdlcSound.FrameOnLine | slmodemd/modem_pack.c:415-466 | the bits of a frame of two octets |
| HdlcPacker.Transmitter.PutOctet | slmodemd/modem_pack.c:395-412 | the register gains the octet with zero insertion, which continues across octets |
| HdlcPacker.Transmitter.PutFrameOctet | slmodemd/modem_pack.c:459-466 | the octet is sent and folded into the FCS |
| HdlcPacker.Transmitter.PutCheck | slmodemd/modem_pack.c:443-458 | the complemented FCS ends the frame |
| HdlcPacker.Transmitter.PutFlag | slmodemd/modem_pack.c:433-442 | a flag, and the frame that the framer gives for it |
| HdlcPacker.Transmitter.TakeGroup | slmodemd/modem_pack.c:425-430 | the oldest bits leave, and none is lost |
| HdlcPacker.Transmitter.GetBits | slmodemd/modem_pack.c:415-469 | the bits handed out are a prefix of the specified line, with at most 32 bits pending |
| HdlcPacker.Receiver.EndFrame | slmodemd/modem_pack.c:498-532 | a frame is handed over exactly if it is whole, at an octet boundary, long enough and has a good FCS |
| HdlcPacker.Receiver.StoreOctet | slmodemd/modem_pack.c:557-569 | the octet is stored, or the frame given up when the buffer is full |
| HdlcPacker.Receiver.RunPass | slmodemd/modem_pack.c:491-569 | the loop over bits is the specified pass |
| HdlcPacker.Receiver.PutBits | slmodemd/modem_pack.c:472-573 | the frames handed over are those of the specified receiver |
| HdlcLink.Relay | slmodemd/modem_pack.c:415-573 | transmitter and receiver objects with different group sizes: exactly the frames sent, in order |
| HdlcLink.Hear | slmodemd/modem_pack.c:472-573 | a receiver object with any bits hands over only frames that stand on the line, in order |
| LapmHdlc.RepliesFit | slmodemd/modem_ec.c:1141-1170 | in every history of two ends, each frame that the first gives to its HDLC transmitter has octets that fit a frame |
| LapmHdlc.NothingElse | slmodemd/modem_ec.c:1141-1170 | where nothing is lost, the frames given to the transmitter are, in order, those that the other end has heard and those still on their way |
| LapmHdlc.Transmit | slmodemd/modem_pack.c:433-466 | two connected LAPM objects with any history, and HDLC objects with any group sizes: the receiver hands over exactly the frames given to the transmitter, in order, and all of them once enough bits have gone by |
| Async.ReadAppend | slmodemd/modem_pack.c:121-143 | a stretch of line may be read in pieces |
| Async.ReadLine | slmodemd/modem_pack.c:84-143 | reading gives back the characters, whatever the pauses between them |
| Async.ReadAny | slmodemd/modem_pack.c:121-143 | after any pause a start bit and eight bits are a character, whatever stands in place of the stop bit |
| Async.FrameBits | slmodemd/modem_pack.c:55-81 | the bits of the character 0x53 |
| AsyncPacker.FrameValue | slmodemd/modem_pack.c:55-81 | the ten bits put in are start bit, character from the lowest bit on, stop bit |
| AsyncPacker.Transmitter.GetBits | slmodemd/modem_pack.c:84-118 | the bits handed out and those pending are whole characters in order with marks between them; all characters if enough bits are asked for; at most 17 bits pending |
| AsyncPacker.Receiver.PutGroup | slmodemd/modem_pack.c:126-141 | a group completes at most one character, and fewer than ten bits stay pending |
| AsyncPacker.Receiver.PutBits | slmodemd/modem_pack.c:121-143 | the characters handed over are those on the line received |
| AsyncLink.Relay | slmodemd/modem_pack.c:84-143 | the characters given, from the first on and nothing else, for every grouping on either side |
| Crc32.TableIsDivision | pjproject-2.11.1/pjlib-util/src/pjlib-util/crc32.c:22-80 | a table step is eight steps of division by 0xedb88320 |
| Crc32.WordFolds | pjproject-2.11.1/pjlib-util/src/pjlib-util/crc32.c:167-175 | four lookups on a word fold its four octets |
| Crc32.TableCrc.Update | pjproject-2.11.1/pjlib-util/src/pjlib-util/crc32.c:156-183 | the check value of the message, for every address |
| Crc32.BitCrc.Update | pjproject-2.11.1/pjlib-util/src/pjlib-util/crc32.c:199-223 | the same by single bits |
| Crc32.CrcConcat | pjproject-2.11.1/pjlib-util/src/pjlib-util/crc32.c:156-183 | updating piece by piece is updating once |
| Crc32.CalcTable | pjproject-2.11.1/pjlib-util/src/pjlib-util/crc32.c:234-242 | the check value from a fresh context, table form |
| Crc32.CalcBits | pjproject-2.11.1/pjlib-util/src/pjlib-util/crc32.c:234-242 | the same, bitwise form |
| Crc32.CalcPieces | pjproject-2.11.1/pjlib-util/src/pjlib-util/crc32.c:156-242 | both forms agree on every message, however it is cut and aligned |
| Crc32.Residue | pjproject-2.11.1/pjlib-util/src/pjlib-util/crc32.c:156-183 | a message followed by its check value, low octet first, leaves 0xdebb20e3 in a register of ones |
| Crc32.KnownValues | pjproject-2.11.1/pjlib-util/src/pjlib-util/crc32.c:15-15 | the check value of the digits 1 to 9 is 0xcbf43926, and that of a zero octet 0xd202ef8d |
| Stack.DecodeAll | slmodemd/modem_comp.c:242-423 | a fresh decoder object delivers what the octets stand for |
| Stack.Carry | slmodemd/modem.c:946-969 | ring, encoder, link and decoder as objects, driven by any acts: the link goes through the specified run, in which it is given the blocks of the log exactly where it asks; what has arrived decodes without error to a prefix of what was accepted from the terminal, and to all of it when everything the link has taken has arrived and the last block was not full |

## Left out

- The data pumps, the AT command interpreter, sockets, the pseudo terminal, the SIP side and `dp_*.c` are not part of this model.
- Writing decoded characters to the pseudo terminal (`modem_comp_put_chars`) depends on partial writes; the decoder is modelled directly.
- Compressor.Compressor.Decode: octets that no encoder emits, where the code does not check (an unallocated codeword, more than 15 bits, padding that is not zero), are `Outside` in the specification, and the method asks for input without them.
- Compressor.Compressor.constructor: dictionaries of at most 32768 entries, because the 16-bit threshold overflows beyond, and strings of at most 34 characters, because `str_data` holds 34; the specification allows 250, the limit of `comp_init`.
- `comp_config` after data has flowed, and the functions of the COMP_TEST build.
- Compressor.Compressor.EncodeTurn: whether the mode changes is reported as any outcome (`go`), so that nothing depends on the ratio; `Compressor.Compressor.TestMode` ties it to the ratio kept in the object.
- Compressor.Compressor.Encode: likewise (`choices`); the nested loops of the source are one loop over the same turns; the number of octets returned, which no caller uses except for its sign, is not modelled, and the sign is never negative.
- Compressor.Compressor.SendBits: the output buffer is a sequence without its two indices; `Outgoing.Serve` shows that fewer than 128 octets are in it when its owner is done.
- LapmSafety.PrefixSafety: both peers start in the data state, and such peers send neither SABME nor XID, so that neither arrives within a transfer; `LapmPair.Connect` brings two peers to that state, and the peer itself handles both at any time.
- LapmPeer.LapmPeer.HeedXid: that the compressor objects take over a smaller dictionary is not modelled; see `comp_config` above.
- A frame damaged on the line counts as lost; that the FCS does not detect every error is outside the model.
- LapmWire.ParseOctets: frames too short for their kind, of which the source reads what the buffer holds behind them.
- LAPM statistics, debug output, status messages to the upper layer, TEST, UI, FRMR and T403, which is compiled out.
- A negative return of `put_chars`: the one in use returns no negative value.
- The ODP/ADP detector before the link is established.
- LapmHdlc.Transmit: a source gives at most 128 characters at a time, the room in a slot; the HDLC transmitter is given each frame as it is when its transmission is complete, where the source reads the slot octet by octet; `LapmFrames.CtrlStable` and `LapmFrames.SlotSafe` say when the slot stays the same meanwhile.
- Stack.Carry: the link carries frames, not bits; `LapmHdlc.Transmit` is the step from one to the other.
- HdlcRoundTrip.RoundTrip: frames of no octet or of more than 510 are not promised; `HdlcPacker.Receiver.EndFrame` and `HdlcPacker.Receiver.StoreOctet` say what the receiver does with them.
- The big-endian table of the CRC-32.
