# Proved models of the BTstack core in the Teensy package

The Teensy package of BTstack carries a number of self-contained algorithms under its Arduino wrapper. This project
models them in Dafny, in the imperative form of the C code where the C code updates state in place, and proves what
they are for.

| files | component | main results |
|---|---|---|
| `Octets`, `Blocks`, `Rfc3610`, `Ccm`, `CcmRuns` | incremental AES-CCM of the crypto engine | any legal split of the data into calls computes RFC 3610; opening inverts sealing; the empty message |
| `BitStrings`, `Rfc4493`, `CmacOneShot`, `CmacEngine` | AES-CMAC, one-shot and event-driven | one-shot form is RFC 4493 for every size; event-driven form is, exactly up to 4080 bytes |
| `QueueModel`, `CryptoQueue`, `QueueRuns` | request queue of the crypto engine | over any run of events, with callbacks that submit more: first come first served, every callback once and with all it submits, one HCI command at a time, and every awaited random byte accounted for |
| `HsmTree`, `HsmTrace`, `Hsm` | hierarchical state machine | exact exit/entry trace of a dispatch; active states are the chain of the current state after any run |
| `HidItems`, `HidUsage`, `HidPlaces`, `HidIterator`, `HidInPlace`, `HidWideRange`, `HidExample`, `HidLayout`, `HidReportSize`, `BitFields`, `HidReport` | HID descriptor and report parser | the iterator hands out exactly the fields of the descriptor; exactly when all of them lie in their main items; fields disjoint, ordered and inside the separately computed size; value of a field |
| `Base64Bits`, `Base64Encoder`, `Base64Block`, `Base64Decoder` | base64 encoder and decoder | any split into stream calls encodes as RFC 4648; decoding inverts encoding |
| `LinkedList`, `LinkedListIterator` | intrusive linked list | stable partition on the heap; iteration that removes its current element in either way |
| `ChannelExpansion` | in-place audio channel expansion | exactly which frame counts and channel counts come out right |
| `Playback` | A2DP playback path | audio played plus leftover is the decoded stream; requests filled, leftover always fits |
| `LtvRecords`, `LtvBuilder`, `AdIterator` | LTV builder and AD iterator | what is built is read back to the last byte; `add_bytes` as the exception |
| `Widths`, `Wrappers`, `Sequences` | | the C integer types with truncation written out, an option type, and facts about sequences |

AES is a parameter of type `Cipher` throughout: nothing depends on what it computes. Loops, unrolling, case labels and
early exits follow the C code; what an assert of the source demands is a precondition. A pointer into a buffer is an
array and an index, and ghost variables record what the caller has passed so far.

## Where the code does not do what it is for

Each of these is stated with a witness and with the exact condition.

- An AES-CCM request for an empty message encrypts the chaining value once too often
  (`CcmRuns.RunEmpty`, `CcmRuns.EmptyTagIff`, `CcmRuns.EmptyTagWrong`).
- The event-driven CMAC keeps its block count in eight bits (`CmacEngine.EngineIsCmacIff`, `CmacEngine.WrapLosesBlocks`).
- A HID usage range that is wider than the fields left for it, or upside down with more than one usage, hands out
  fields on top of what follows (`HidInPlace.InsideIff`, and the descriptors of `HidWideRange.WiderThanCount` and
  `HidWideRange.UpsideDown`).
- The in-place channel expansion overwrites samples it still needs for some channel counts, and does nothing for more
  than 32768 frames (`ChannelExpansion.CorrectIff`).
- `btstack_ltv_builder_add_bytes` advances the write position twice (`LtvBuilder.AddBytesIff`,
  `LtvBuilder.AddBytesReadBack`).
- The room check of the base64 stream encoder only covers calls with a multiple of three bytes
  (`Base64Encoder.RoomCheckIff`, `Base64Encoder.FillExactly`).

## Model

| member | source | states |
|---|---|---|
| Ccm.CcmRequest.Init | src/btstack_crypto.c:1363-1372 | a fresh request stands for its parameters with nothing absorbed |
| Octets.Be16Value | src/btstack_crypto.c:529 | of the two bytes of a length or counter the first one counts 256 and the second one 1, and no other two bytes have its value |
| Rfc3610.B0Fields | src/btstack_crypto.c:524-532 | a block is B_0 if and only if its flags byte, nonce and last two bytes have the values of section 2.2 |
| Rfc3610.AFields | src/btstack_crypto.c:489-492 | a block is the counter block A_i if and only if its first byte is 1, the nonce follows, and its last two bytes have the value i |
| Rfc3610.AadFieldIs | src/btstack_crypto.c:844-850 | the authenticated data are preceded by two bytes with their length, and by nothing if there are none |
| Rfc3610.SealedByte | src/btstack_crypto.c:489-522 | every byte of the ciphertext is the message byte xored with the encryption of the counter block for its place, the counter block being given by its fields |
| Rfc3610.SealedTag | src/btstack_crypto.c:524-781 | the tag from a first block and a counter block given by their fields, the length bytes, and zeros up to whole blocks |
| Ccm.CcmRequest.SetupB0 | src/btstack_crypto.c:524-532 | the first block has the flags byte of RFC 3610 section 2.2 as a number, the nonce, and the message length in its last two bytes, the more significant one first |
| Ccm.CcmRequest.CalcX1 | src/btstack_crypto.c:798-808 | the register becomes the encryption of B_0; the next state depends on operation and AAD |
| Ccm.CcmRequest.CalcAadXn | src/btstack_crypto.c:842-888 | a digest step takes the two length bytes and as much input as fits, encrypts a full or final block and moves on accordingly |
| Ccm.CcmRequest.CalcXn | src/btstack_crypto.c:810-840 | a message block, zero filled, is chained into the register |
| Ccm.CcmRequest.CalcSn | src/btstack_crypto.c:783-796 | a block of output is the input xored with the key stream block of the counter |
| Ccm.CcmRequest.CalcS0 | src/btstack_crypto.c:768-781 | the register is masked with S_0 and the request is finished |
| Ccm.CcmRequest.Next | src/btstack_crypto.c:656-676 | pointers, lengths and counter advance by one block; S_0 or the end of the call follows the last |
| Ccm.CcmRequest.Digest | src/btstack_crypto.c:1374-1383 | a call absorbs exactly its piece of the authenticated data, whatever pieces came before |
| Ccm.CcmRequest.EncryptBlock | src/btstack_crypto.c:1389-1404 | a call writes the RFC key stream section of its bytes, in place if the buffers coincide, and authenticates the plaintext |
| Ccm.CcmRequest.DecryptBlock | src/btstack_crypto.c:1406-1418 | the same for decryption, which authenticates the plaintext it has just produced although it runs the two halves of a step in the other order |
| Ccm.CcmRequest.Run | src/btstack_crypto.c:950-988 | the scheduler turns of a call end, with the output and the register of all bytes so far |
| Ccm.CcmRequest.ProcessNothing | src/btstack_crypto.c:783-840 | an encrypt or decrypt call without data leaves the register encrypted once more before S_0 is added |
| CcmRuns.RunEmpty | src/btstack_crypto.c:783-840 | the tag of an empty message, as a request yields it after any cut of the AAD and a call in either direction |
| Ccm.CcmRequest.GetAuthenticationValue | src/btstack_crypto.c:1385-1387 | the tag is the front of the register |
| Rfc3610.CtrAppend | src/btstack_crypto.c:489-522 | the key stream of a message is that of its pieces, one after the other |
| Rfc3610.CtrInvolution | src/btstack_crypto.c:691-712 | applying the key stream twice gives the message back |
| CcmRuns.Encrypt | src/btstack_crypto.c:656-888 | any legal cut of AAD and message into calls yields the ciphertext and encrypted tag of RFC 3610 sections 2.2 to 2.4 |
| CcmRuns.Decrypt | src/btstack_crypto.c:656-888 | any legal cut of AAD and ciphertext yields a message whose sealed form has this ciphertext, with the tag of that sealed form |
| CcmRuns.OpenInvertsSeal | src/btstack_crypto.c:691-766 | that message and tag are the ones that were sealed, however either side was cut |
| CcmRuns.EmptyTagIff | src/btstack_crypto.c:819-835 | with an empty message the tag is right if and only if encrypting the chaining value leaves the transmitted bytes alone |
| CcmRuns.EmptyTagWrong | src/btstack_crypto.c:819-835 | there is a cipher for which it is wrong for all parameters and authenticated data |
| Rfc4493.Subkey | src/btstack_crypto.c:254-265 | the byte-wise shift and reduction double the 128-bit string of a block in GF(2^128) |
| Rfc4493.BitsInjective | src/btstack_crypto.c:234-265 | that determines the block |
| CmacOneShot.ShiftLeftInPlace | src/btstack_crypto.c:234-242 | the in-place loop shifts the whole block by one bit |
| CmacOneShot.CalcSubkey | src/btstack_crypto.c:254-265 | the subkey of section 2.3 of RFC 4493 |
| CmacOneShot.CalcLastBlock | src/btstack_crypto.c:295-315 | a complete last block is masked with K1, any other one, also an empty one, padded and masked with K2 |
| CmacOneShot.Calc | src/btstack_crypto.c:267-323 | the hash is the CMAC of RFC 4493 for every key, cipher and 16-bit size, from a buffer or a generator: K1, told by its bits, masks a complete last block, and K2 any other one |
| Rfc4493.CmacComplete | src/btstack_crypto.c:297-301 | the MAC of whole blocks is masked with a block that has the doubled bits of the encryption of zeros |
| Rfc4493.CmacPadded | src/btstack_crypto.c:302-315 | the MAC of any other message is masked with a block that has the bits doubled twice, behind 0x80 and zeros |
| Rfc4493.CmacIsMac | src/btstack_crypto.c:267-323 | these two cases are the CMAC, and nothing else meets them |
| CmacEngine.Engine.Start | src/btstack_crypto.c:443-463 | the first command asks for the encryption of zeros |
| CmacEngine.Engine.HandleEngineReady | src/btstack_crypto.c:345-415 | every command carries the next masked block, byte reversed |
| CmacEngine.Engine.HandleEncryptionResult | src/btstack_crypto.c:417-441 | every answer extends the chain by one block or ends the request |
| CmacEngine.Engine.Complete | src/btstack_crypto.c:326-463 | a request reaches the idle state with the chaining over the counted blocks; up to 4080 bytes that is the MAC, with K1 and K2 told by their bits |
| CmacEngine.CountedAtMost | src/btstack_crypto.c:443-463 | the eight-bit block count is the real one if and only if the size is at most 4080 |
| CmacEngine.CountedBlocksAre | src/btstack_crypto.c:449-455 | beyond 255 blocks the count is the real one less full turns of the byte, or one if nothing is left |
| CmacEngine.WrapLosesBlocks | src/btstack_crypto.c:449-455 | beyond that, a message and a cipher for which the hash differs |
| CmacEngine.EngineIsCmacIff | src/btstack_crypto.c:326-463 | event-driven and one-shot form agree for every cipher, key and message of a size if and only if it is at most 4080 |
| CryptoQueue.Engine.PopHead | src/btstack_crypto.c:229-230 | the head leaves the queue, with what it asked for, and is recorded as departed |
| CryptoQueue.Engine.Complete | src/btstack_crypto.c:229-232 | the head leaves first and its callback is called next, which submits what it wants in order; the outcome and all data delivered to it are those of its departure; less work is left than before |
| CryptoQueue.Engine.SubmitAll | src/btstack_crypto.c:229-232 | every submission of a callback is made, in order |
| CryptoQueue.Engine.Submit | src/btstack_crypto.c:1247-1255 | a request is accepted behind all others exactly if its id is not queued, whoever submits it; while an answer is awaited nothing else changes |
| CryptoQueue.Engine.AddTail | src/btstack_crypto.c:1304-1316 | the new queue and record exactly; a new key generation resets a finished one |
| CryptoQueue.Engine.Run | src/btstack_crypto.c:890-1050 | the scheduler loop ends, with an empty queue, a command under way or a stack that cannot send; while an answer is awaited it does nothing, a head that needs data only has a command sent, and any other head is the first to leave |
| CryptoQueue.Engine.Turn | src/btstack_crypto.c:918-1047 | no turn spins: it sends a command, counts a software operation down, or completes the head |
| CryptoQueue.Engine.FillBuffer | src/btstack_crypto.c:1058-1070 | a payload extends the buffer of a random request, or the request leaves with the first bytes of all that was delivered to it |
| CryptoQueue.Engine.CollectRandom | src/btstack_crypto.c:1071-1082 | a payload extends the 64-byte pool, which never overflows and becomes a key as soon as it is full |
| CryptoQueue.Engine.HandleRandomData | src/btstack_crypto.c:1052-1088 | the payload goes to the request that asked for it, and the engine goes on |
| CryptoQueue.Engine.AnswerRandom | src/btstack_crypto.c:1179-1183 | an answer nobody waits for changes nothing; any other one is used by the head |
| CryptoQueue.Engine.StateReset | src/btstack_crypto.c:1421-1430 | a halt drops every queued request and no other, with the data its head had been given |
| CryptoQueue.Engine.Halt | src/btstack_crypto.c:1157-1168 | a halt calls no callback and leaves an idle engine |
| CryptoQueue.FilledFurther | src/btstack_crypto.c:1058-1070 | with its last payload a random request holds exactly its size of what was delivered since it became head |
| QueueModel.CalledAtMostOnce | src/btstack_crypto.c:229-232 | no callback is called more often than its request was accepted |
| QueueModel.AfterDropAll | src/btstack_crypto.c:1421-1430 | dropping the queue adds departures in order, no callbacks, and the data of its head |
| QueueModel.FairOne | src/btstack_crypto.c:1247-1255 | a submission is refused exactly if its id is among the requests accepted before and not yet departed |
| QueueModel.RunRecords | src/btstack_crypto.c:1144-1245 | over any run, what is submitted from outside and the awaited payloads are those of the events, in order |
| QueueRuns.Apply | src/btstack_crypto.c:1144-1245 | one event takes the engine from one state to the next as the step relation allows: a submission, an answer, a halt, or any other event |
| QueueRuns.Drive | src/btstack_crypto.c:890-1245 | any sequence of events is a run of such steps from the first to the last state, with the record of its submissions and awaited payloads |
| QueueRuns.ServedInOrder | src/btstack_crypto.c:229-232 | at any time, accepted requests have departed or are queued in the order of acceptance, all awaited data went to them in that order, every departed request got what it asked for, and callbacks submitted exactly what they want |
| QueueRuns.OneUnderWay | src/btstack_crypto.c:890-930 | at any time one command at most is sent and not answered, and it is one of the head of the queue |
| QueueRuns.RefusedIff | src/btstack_crypto.c:1247-1255 | every attempt of a run was accepted if and only if no request of its id was accepted before it and had not departed |
| HsmTree.LcaIsLowest | src/btstack_hsm.c:173-192 | the lowest common ancestor is a common one that all others contain |
| HsmTree.LcaClimb | src/btstack_hsm.c:177-192 | climbing from the source until the target is contained finds it |
| HsmTrace.HandlerIs | src/btstack_hsm.c:131-141 | the handling state is the first one of the chain that neither names its super state nor leaves the event unhandled |
| HsmTrace.DrillIs | src/btstack_hsm.c:200-211 | for any sequence of initial transitions to its end, drilling down ends in its last state and enters exactly the states below the destination |
| HsmTrace.DispatchedBy | src/btstack_hsm.c:129-213 | if the first state that deals with the event requests a transition, the states up to the lowest common ancestor are left and those down to the final state entered, with one more exit and entry for a self transition; otherwise nothing happens |
| HsmTrace.NobodyHandles | src/btstack_hsm.c:131-146 | an event all states of the chain pass on is ignored |
| HsmTrace.ActionAt | src/btstack_hsm.c:157-197 | exits go along a path from the innermost state outwards, entries the other way |
| HsmTrace.TransitionLeads | src/btstack_hsm.c:150-197 | exits and entries of a transition take the chain of one state to the chain of the other, never entering twice or leaving while inactive |
| HsmTrace.DrillLeads | src/btstack_hsm.c:200-210 | so do the initial transitions |
| HsmTrace.DispatchLeads | src/btstack_hsm.c:129-213 | so does a dispatch |
| HsmTrace.RunLeads | src/btstack_hsm.c:129-213 | after any sequence of dispatches the states entered and not exited are the ancestor chain of the current one |
| HsmTrace.InitLeads | src/btstack_hsm.c:81-106 | and after initialisation |
| Hsm.Machine.SuperCache | src/btstack_hsm.c:108-127 | the cache stays in bounds, holds true ancestors only, and yields the super state |
| Hsm.Machine.FindInAncestors | src/btstack_hsm.c:178-186 | the inner search finds the source exactly if it contains the target, at its level |
| Hsm.Machine.LeaveToLca | src/btstack_hsm.c:174-192 | the source and its super states are left up to the lowest common ancestor, whose path is cached |
| Hsm.Machine.Bubble | src/btstack_hsm.c:131-146 | the event reaches the first state of the chain that neither names its super state nor leaves it unhandled |
| Hsm.Machine.Initialise | src/btstack_hsm.c:200-211 | the initial transitions end, in the leaf and with the entries they prescribe |
| Hsm.Machine.Init | src/btstack_hsm.c:81-106 | the first transition enters the path to its destination and drills down |
| Hsm.Machine.Transition | src/btstack_hsm.c:150-197 | the exact trace of a transition, with one more exit and entry for a self transition |
| Hsm.Machine.Dispatch | src/btstack_hsm.c:129-213 | for every state of the chain whose inner states pass the event on: its transition ends in a state without initial transition inside the destination, with the exact exits and entries, its other answers change nothing and set the status, and an event nobody deals with is ignored; the recorded trace always replays to the chain of the current state |
| HidItems.ParseShort | src/btstack_hid_parser.c:122-160 | every short item of section 6.2.2.2 of USB HID 1.11 is read back as written |
| HidItems.ParseLong | src/btstack_hid_parser.c:129-139 | every long item with at most four bytes is read back as written, and any other one is refused |
| HidItems.ParseNone | src/btstack_hid_parser.c:122-139 | exactly what is refused: nothing, an item that is cut short, or one that is too long |
| HidItems.ItemValueIs | src/btstack_hid_parser.c:141-158 | the value is the one number in range with these bytes: two's complement for Global tags 1 to 4, unsigned for all others up to three bytes |
| HidItems.WellFormedIff | src/btstack_hid_parser.c:199-222 | behind the items of a descriptor is nothing that parses, and nothing at all if and only if the descriptor is well formed |
| HidItems.ParseItem | src/btstack_hid_parser.c:122-160 | the parser computes the item at the front, or none if it is cut short or too long |
| HidItems.ReadValue | src/btstack_hid_parser.c:141-158 | the byte loop yields the little-endian value, sign-extended for Global tags 1 to 4 |
| HidItems.ItemIterator.HasMore | src/btstack_hid_parser.c:199-212 | an item is ready exactly if one can be parsed; a descriptor is valid exactly if all its bytes are used |
| HidItems.ItemIterator.GetItem | src/btstack_hid_parser.c:214-218 | items come in order, each once |
| HidUsage.FindAdvances | src/btstack_hid_parser.c:275-314 | the usage search moves forward, and a range offers as many usages as it spans, up to the 16 bits of the counter |
| HidUsage.AdvanceKeepsEnd | src/btstack_hid_parser.c:414-435 | handing out, giving up or overrunning fields never moves the end of the main item, modulo 16 bits |
| HidUsage.AdvanceKeepsFits | src/btstack_hid_parser.c:414-435 | usages that fit the fields left go on fitting, and use up one field after the other |
| HidUsage.AdvanceKeepsMisfit | src/btstack_hid_parser.c:414-435 | usages that do not fit lead to a field that is not due |
| HidPlaces.WithoutFields | src/btstack_hid_parser.c:341-377 | a constant item, one with report count zero and one of another type have no fields, use up the usages before them and make the current usage page that of the next ones |
| HidPlaces.HandCounts | src/btstack_hid_parser.c:402-448 | a main item yields fields with count, count - 1, ... fields left, down to the last one or to the end of a range that is too short, unless the usages run out |
| HidPlaces.HandStarts | src/btstack_hid_parser.c:361-371 | a main item for which usages are found yields its first field |
| HidPlaces.Misfit | src/btstack_hid_parser.c:414-448 | a range that does not fit makes the iterator hand out a field that is not due |
| HidPlaces.AllDueIff | src/btstack_hid_parser.c:356-448 | all fields handed out are due if and only if every range found for a variable item fits |
| HidIterator.UsageIterator.FindUsage | src/btstack_hid_parser.c:275-314 | the search stops at the first item that makes a usage available |
| HidIterator.UsageIterator.HandleGlobal | src/btstack_hid_parser.c:239-273 | the global fields and the position follow the items read; a new report id restarts the position |
| HidIterator.UsageIterator.HandleMain | src/btstack_hid_parser.c:316-354 | a constant item is skipped by exactly its width; any other one is due with its report count |
| HidIterator.UsageIterator.FindMain | src/btstack_hid_parser.c:356-382 | the scan ends at the next main item with fields, or at the end, without losing a field |
| HidIterator.UsageIterator.HasMore | src/btstack_hid_parser.c:395-400 | there is more exactly if fields of the descriptor are still to come |
| HidIterator.UsageIterator.GetItem | src/btstack_hid_parser.c:402-448 | the next field of the descriptor is handed out, and the others are still to come |
| HidInPlace.PlacesAligned | src/btstack_hid_parser.c:316-448 | a field starts exactly as many fields before the end of its main item as are still due, modulo 16 bits |
| HidInPlace.PlacesCounted | src/btstack_hid_parser.c:356-448 | if all ranges fit, the fields of every main item come with count, count - 1, ... fields left, item after item |
| HidInPlace.EveryItemAccounted | src/btstack_hid_parser.c:356-382 | every main item with fields has some of them handed out, unless the usages ran out at it or before it |
| HidInPlace.FitIsInOrder | src/btstack_hid_parser.c:356-448 | if all ranges fit, every field lies at its place and they come in the order of the descriptor |
| HidInPlace.NotDueOutside | src/btstack_hid_parser.c:414-433 | a field that is not due starts where its main item ends |
| HidInPlace.InsideIff | src/btstack_hid_parser.c:356-448 | every field lies inside its main item if and only if no range found for a variable item offers more usages than fields are left for it and no upside-down one offers more than one |
| HidExample.MainItems | src/btstack_hid_parser.c:226-237 | Input, Output and Feature items as written, their constant and variable bits; collections are none of them |
| HidExample.GlobalItems | src/btstack_hid_parser.c:239-273 | what Usage Page, Logical Minimum, Report Size, Report ID and Report Count items do as written, and that Logical Maximum does nothing |
| HidExample.UsageItems | src/btstack_hid_parser.c:285-292 | a usage of one byte is one of the current page, one of four bytes names its page itself |
| HidExample.DescribedFields | src/btstack_hid_parser.c:356-448 | every field of one descriptor of 38 bytes: two single usages, a constant item with a usage of its own, a range and an array |
| HidWideRange.WiderThanCount | src/btstack_hid_parser.c:414-433 | a descriptor with report count 2 and usages 1 to 3 makes the iterator hand out a field outside its main item |
| HidWideRange.UpsideDown | src/btstack_hid_parser.c:414-433 | so does one with usages 0x10005 to 6 |
| HidLayout.BitsAreTotal | src/btstack_hid_parser.c:316-354 | while a report id is current, the position is the size of that report so far |
| HidLayout.FieldsDisjoint | src/btstack_hid_parser.c:402-448 | fields of one report have increasing and disjoint bit ranges |
| HidLayout.FieldInReport | src/btstack_hid_parser.c:402-448 | every field lies inside its report |
| HidLayout.HandedOut | src/btstack_hid_parser.c:402-415 | the 16-bit position is exact as long as reports are shorter than 65536 bits |
| HidReportSize.ReportSizeForId | src/btstack_hid_parser.c:530-590 | for every descriptor, the least number of bytes that holds the bits added up to the early stop, rounded toward zero if they are negative, or zero if the descriptor is malformed; for narrow values and an id in one run, the least number of bytes that holds the report |
| HidReportSize.SizeIsTotal | src/btstack_hid_parser.c:530-590 | those are all bits of the report if its id occupies one run and values are as wide as the fields that store them |
| HidReportSize.OneReport | src/btstack_hid_parser.c:536-584 | a report with one input item has size times count bits, whatever the width of these values, and its end is noticed unless there are none |
| HidReport.AllFields | src/btstack_hid_parser.c:395-448 | a whole run ends and hands out exactly the fields of the descriptor |
| HidReport.FieldsOfOneReport | src/btstack_hid_parser.c:402-590 | the fields of one report, as handed out, are disjoint, increasing and inside the bytes of the separate computation |
| HidReport.HidParser.Fetch | src/btstack_hid_parser.c:464-466 | the next field of any report, if one is still to come |
| HidReport.HidParser.HasMore | src/btstack_hid_parser.c:464-476 | the next field with the id of the report at hand, or without one, is found, passing over fields of other reports and no others, and none only if no such field is still to come |
| HidReport.HidParser.Gather | src/btstack_hid_parser.c:502-511 | the bytes gathered hold the field |
| HidReport.HidParser.GetField | src/btstack_hid_parser.c:486-525 | the bits are those at the position of the field, behind the report id if there is one; the value is that number, in two's complement for a variable field with negative logical minimum, and the usage for an array field |
| HidReport.StartBitIs | src/btstack_hid_parser.c:494-497 | behind a report id positions count from the second byte on, unless the 16 bits of the position wrap |
| HidReport.VariableValueIs | src/btstack_hid_parser.c:513-518 | the value is the one number in range whose low bits are those of the field |
| BitFields.FieldBit | src/btstack_hid_parser.c:502-511 | bit j of a field is bit start + j of the report, counted from the lowest bit of byte 0 |
| HidReport.ReadVariable | src/btstack_hid_parser.c:513-518 | the sign test and subtraction give the two's complement value |
| BitFields.FieldInBytes | src/btstack_hid_parser.c:502-511 | a bit field is determined by the bytes it touches |
| BitFields.OneMoreByte | src/btstack_hid_parser.c:506-510 | or-ing in a shifted byte extends the little-endian value |
| BitFields.AndMask | src/btstack_hid_parser.c:511 | masking with 2^k - 1 keeps the k low bits |
| BitFields.AndTop | src/btstack_hid_parser.c:514 | the sign test looks at the top bit |
| Base64Bits.LookupIs | src/btstack_base64_decoder.c:63-80 | the decoder's table is the inverse of the alphabet and 99 everywhere else |
| Base64Encoder.Vectors | src/btstack_base64_encoder.c:46-67 | test vectors of RFC 4648 section 10 and one for '+' and '/' |
| Base64Encoder.EncInner | src/btstack_base64_encoder.c:52-67 | three bytes become the four characters of RFC 4648 |
| Base64Encoder.EncLoop | src/btstack_base64_encoder.c:69-108 | the unrolled loop encodes exactly (len - 1) / 3 triples |
| Base64Encoder.Stream.CaseZero | src/btstack_base64_encoder.c:193-205 | one byte with nothing held |
| Base64Encoder.Stream.CaseOne | src/btstack_base64_encoder.c:206-214 | one byte with two bits held |
| Base64Encoder.Stream.CaseTwo | src/btstack_base64_encoder.c:215-223 | one byte with four bits held |
| Base64Encoder.Stream.Resume | src/btstack_base64_encoder.c:187-229 | the resumable loop writes what the bytes fed so far add, and holds exactly the bits not yet written |
| Base64Encoder.Stream.Encode | src/btstack_base64_encoder.c:160-232 | the same for a call, with the size report when whole triples do not fit |
| Base64Encoder.Stream.Final | src/btstack_base64_encoder.c:115-158 | the held bits, padding and a null byte, or nothing if there is no room |
| Base64Encoder.EmittedThenClosing | src/btstack_base64_encoder.c:115-232 | stream outputs and final output together are the encoding of RFC 4648 section 4 |
| Base64Encoder.EmittedByte | src/btstack_base64_encoder.c:193-227 | what one byte adds to the output depends only on the bits held |
| Base64Encoder.RoomCheckIff | src/btstack_base64_encoder.c:168-172 | the room check covers what a call writes if and only if its length is a multiple of three |
| Base64Encoder.FillExactly | src/btstack_base64_encoder.c:160-172 | a call with exactly the room the check asks for writes more than that room if and only if its length is no multiple of three |
| Base64Block.ProcessBlock | src/btstack_base64_encoder.c:234-257 | succeeds exactly for non-empty data whose encoding is shorter than the buffer, and writes it with a null byte |
| Base64Block.EncodePieces | src/btstack_base64_encoder.c:110-232 | every split into stream calls gives the same encoding |
| Base64Decoder.Decoder.ProcessByte | src/btstack_base64_decoder.c:61-128 | the automaton's result and next context, before its result is cut to a byte |
| Base64Decoder.ProcessBlock | src/btstack_base64_decoder.c:130-152 | writes the decoded bytes, or returns -3 for an invalid character and -4 for a full buffer |
| Base64Decoder.DecodeRejects | src/btstack_base64_decoder.c:82-97 | a character outside the alphabet is refused wherever it comes, and so is padding anywhere but behind two or three characters of a group |
| Base64Decoder.DecodeEncode | src/btstack_base64_decoder.c:61-152 | decoding an encoding returns the original bytes with either padding, unless the buffer is too small for them |
| LinkedList.Add | src/btstack_linked_list.c:111-123 | an item not in the list becomes its first |
| LinkedList.AddTail | src/btstack_linked_list.c:125-136 | an item not in the list becomes its last |
| LinkedList.Remove | src/btstack_linked_list.c:138-148 | an item in the list is taken out and keeps its next pointer |
| LinkedList.Pop | src/btstack_linked_list.c:177-182 | the first item is taken out |
| LinkedList.Count | src/btstack_linked_list.c:153-160 | the number of items |
| LinkedList.Split | src/btstack_linked_list.c:72-98 | matches and others keep their order, and the input becomes empty |
| LinkedList.FilterPartition | src/btstack_linked_list.c:72-98 | together they are the input's items, each once |
| LinkedList.FilterMembers | src/btstack_linked_list.c:72-98 | an item is among the matches exactly if the predicate holds for it |
| LinkedList.FilterList | src/btstack_linked_list.c:100-106 | the others stay in the list itself |
| LinkedListIterator.ListIterator.HasNext | src/btstack_linked_list.c:195-206 | exactly if elements are left, also after the current one was taken out |
| LinkedListIterator.ListIterator.Next | src/btstack_linked_list.c:208-221 | steps onto the next element in either case |
| LinkedListIterator.ListIterator.Remove | src/btstack_linked_list.c:223-228 | the current element is taken out and the next one comes next |
| LinkedListIterator.Treat | src/btstack_linked_list.c:138-228 | both ways to take out the current element leave the iterator usable |
| LinkedListIterator.Iterate | src/btstack_linked_list.c:189-228 | every element is visited once and in order, and exactly the elements not removed stay, in order |
| ChannelExpansion.ExpandFrame | src/btstack_audio_generator.c:75-78 | one frame, channel by channel |
| ChannelExpansion.DuplicateAudioChannels | src/btstack_audio_generator.c:73-80 | the array becomes the fold of the frame copies, last frame first |
| ChannelExpansion.SoundIsCorrect | src/btstack_audio_generator.c:73-80 | every frame of the result repeats the channels of the same input frame, round robin |
| ChannelExpansion.CorrectMeans | src/btstack_audio_generator.c:75-78 | that is, sample d of an output frame is sample d modulo the source channels of the input frame |
| ChannelExpansion.Unsound | src/btstack_audio_generator.c:73-80 | otherwise there is a buffer for which it does not |
| ChannelExpansion.CorrectIff | src/btstack_audio_generator.c:73-80 | right for every buffer if and only if need = have, need >= 2 * have, at most one frame, or a narrowing of two frames or of frames that all fit before the second input frame; beyond 32768 frames only if there is nothing to do |
| Playback.Sink.PlaybackHandler | src/BTstackTeensy.cpp:980-1000 | a request is filled to its length, and not beyond it, with the next audio, and with zeros only once the decoder has run dry; what is decoded for it are whole SBC frames from the front of the queue |
| Playback.Sink.DecodeFrame | src/BTstackTeensy.cpp:990-994 | the next frame of the current frame size leaves the ring buffer, and its audio follows all earlier audio |
| Playback.Sink.HandlePcmData | src/BTstackTeensy.cpp:1002-1024 | the audio goes to the request and the rest to the ring buffer, where it always fits |
| Playback.Sink.ReceivePacket | src/BTstackTeensy.cpp:1147-1148 | a packet is queued whole or not at all |
| Playback.Sink.Reset | src/BTstackTeensy.cpp:1058-1069 | both ring buffers are emptied |
| LtvRecords.DecodeEncode | src/ad_parser.c:63-98 | every sequence of records is read back, followed by what the rest decodes to |
| LtvRecords.EncodeOneIs | src/btstack_ltv_builder.c:70-78 | a record is a length that counts the tag, the tag and the payload |
| LtvRecords.LeBytesAre | src/btstack_ltv_builder.c:80-106 | the bytes of a value, lowest first |
| LtvBuilder.Builder.AddTag | src/btstack_ltv_builder.c:70-78 | an empty record is added |
| LtvBuilder.Builder.IncreaseTag | src/btstack_ltv_builder.c:48-53 | write position and length byte grow, and nothing else changes |
| LtvBuilder.Builder.AddLittleEndian | src/btstack_ltv_builder.c:80-106 | the little-endian bytes of the value join the last record |
| LtvBuilder.Builder.AddBytes | src/btstack_ltv_builder.c:108-114 | old buffer bytes join the last record and the data follow it |
| LtvBuilder.AddBytesIff | src/btstack_ltv_builder.c:108-114 | the result is the record with the data at its end if and only if there are no data |
| LtvBuilder.AddBytesReadBack | src/btstack_ltv_builder.c:108-114 | it is read back as such if and only if the old bytes equal the data and the data do not start a record |
| AdIterator.AdContext.HasMore | src/ad_parser.c:63-80 | exactly if a complete record lies ahead |
| AdIterator.AdContext.Get | src/ad_parser.c:88-98 | type and payload of the record ahead |
| AdIterator.AdContext.Next | src/ad_parser.c:83-86 | moves past that record; the eight-bit offset never wraps, whatever the data |
| AdIterator.ReadAll | src/ad_parser.c:57-98 | iteration ends and yields the records of any data; built records are read back one for one, to the last byte |
| AdIterator.ReadBuilt | src/btstack_ltv_builder.c:48-106 | what was built in up to 255 bytes is read back |

## Left out

- AES, rijndael and micro-ecc: not part of this model; AES and the making of a key from 64 random bytes are parameters.
- mbedTLS, controller-based ECC and DHKEY, and the controller-based branch of AES-CCM (the other configurations of the engine): not modelled.
- ECC key validation and the value of a DHKEY: calls into code that is not part of this model.
- CCM tables and parameters: requests with an odd or too small tag length, or 0xff00 and more bytes of authenticated data, which RFC 3610 encodes differently, are excluded by precondition.
- CCM calls against their rules (a message chunk that is not a multiple of 16 before the end, more data than announced, digest without authenticated data): excluded by precondition. The source does not check them; its steps only make sense for calls that keep them.
- Ccm.CcmRequest.ProcessNothing: the registers other than the tag's are not described after an empty call; no further call makes sense on that request.
- CryptoQueue.Engine.Submit: AES, CMAC and CCM requests are a number of scheduler turns; what they compute is the subject of `Ccm` and `CmacOneShot`. Submitting a request that is still queued overwrites its fields in the source, which is not modelled.
- Queue environment: `hci_get_state` and `hci_can_send_command_packet_now` are arbitrary functions of time; callbacks may submit any finite tree of requests but do not halt the stack.
- Key generations queued together share one key, as in the source; the departure of the second one says so by having been given no data.
- Hsm.Machine.Dispatch: entry and exit events never transition, the empty event yields the super state, initial transitions point to proper descendants (a self transition there reads a stale path entry), and the tree is no deeper than the path array, with at most 127 levels, so that a level fits `int_fast8_t`. The logging of the depth error is not modelled.
- HidItems.ReadValue: the sign subtraction for four data bytes shifts by the full word in C, which is undefined; the value is taken as two's complement.
- HID: pretty printing, the logical maximum (stored and never read), the assert on reserved Global tags (ignored here) and report-id validity queries are not modelled.
- HidReportSize.ReportSizeForId: sums and products in unbounded integers, where C ints could overflow.
- HidReport.FieldsOfOneReport: for descriptors in which all ranges fit, positions fit 16 bits, and the report's id is not taken up again after other ids; nothing is stated about overlaps otherwise.
- HidReport.HidParser.GetField: fields of 32 bits, fields that span five bytes and fields outside the report are excluded, as their reads are undefined or out of bounds in C; the report must not be empty.
- Base64 null-pointer checks: pointers are arrays and never null.
- Base64Encoder.Stream.Resume: requires room for what the call writes, which the check in the source does not ensure (`Base64Encoder.RoomCheckIff`).
- Base64 lookup tables: given as ranges of characters.
- LinkedList: get_last_item, get_previous_item, empty and get_first_item would only add easy members; predicates depend on the node, not on its next pointer.
- ChannelExpansion.DuplicateAudioChannels: requires a source channel and a buffer that holds both layouts.
- Playback: ring buffers are byte and frame queues with a capacity; decoder and resampler are one function of the SBC frames fed so far with at most 144 frames of output. Request for frame size zero, on which the source loops forever, is excluded. Packet headers, rate adaption, missing audio sinks and stream start are not modelled.
- LtvBuilder.Builder.AddLittleEndian: one method for the 8, 16, 24 and 32-bit adders; `add_string` is `add_bytes`.
- UUID search in advertising data: relies on helpers that are not part of this model.
- The rest of the Arduino wrapper, GAP, GATT, SDP, AVRCP and HFP: I/O and forwarding.
