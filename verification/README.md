# Verified model of the cyberJack smart-card reader driver

The driver talks to a card, a reader and a serial line it does not control. What it does with the bytes that
come back is decided by loops and small state machines, and this project models those: the key-update
certificate files, the T=0 transport of commands, the Answer-to-Reset with reset and protocol selection, the
matching of CCID replies to requests, the serial framing, firmware staging, the CT-API context table, the
configuration file, the decoding of command APDUs and the template for changing a PIN.

Card, reader, serial line and operating system are arbitrary: a script of replies, an oracle function, or a
parameter that decides how many bytes a call moves. Nothing is assumed about them except what a lemma or
method names in its `requires` or in the premise of an `ensures`. A run against a device that never stops
talking is the limit of its finite scripts; when a script ends, the device is gone.

Each module states what a component is for without its code (a grammar, a concatenation of answers, a
structured ATR, a run over records), and proves that the pointer loops of the driver compute exactly that.

| module | component |
|---|---|
| `Bytes` | bytes, 16-bit fields, XOR |
| `KeyFile`, `KeyValidator`, `KeyUpdate` | key-update files: grammar, validator, unchecked second walk |
| `T0Chain`, `T0Collect`, `Tpdu` | T=0 command transport: cases 2 and 4 over answers and over one buffer, and the driver's loops |
| `Atr`, `AtrRules`, `Contactless`, `CardReader` | ATR structure, its rules, the contactless stand-in, the reader object |
| `Ccid` | sequence numbers and stale replies |
| `Serial` | framing, checksums, ACK/NAK, retry |
| `Flash` | staging of modules, signatures and key files; firmware update |
| `CtApi` | context table across failure exits and device loss |
| `Config` | configuration printer and parser |
| `Apdu`, `Tlv`, `PinModify` | APDU cases; tag lookup; PIN-modify template |

Where the driver would read or write outside a buffer, the model says so (`Outside`, `inside`, `overrun`) and says
nothing about what comes after.

Where the code does not do what its design suggests, the code is modelled and the difference is a lemma:

- A key file that turns out corrupt before anything in it asked for an update makes `CtKeyUpdate` return
  success with nothing sent. `KeyUpdate.KeyUpdater.KeyUpdate` says exactly when (`KeyValidator.Silent`), and
  `KeyValidator.RefusedUnseen` names a whole family of such files.
- With a protocol other than T=0 named, `check_len` looks at the XOR only, not at the length.
  `Atr.TrailingBytesAccepted` is an ATR with trailing bytes that passes; `Atr.CheckLenExact` is the exact
  condition under which a passed ATR is a structured one.
- The cut of a T=0 answer moves two bytes from offset La, whether the answer reaches that far or not.
  `T0Chain.LeftoversReturned` is a card for which leftovers of the buffer are returned; `T0Chain.LinkExact` is the
  exact condition under which they never are.
- In case 4 the driver looks for the status word behind twice the data of the first answer. After a first answer
  with data it may send a GET RESPONSE the card did not ask for, miss one it did ask for, or leave its buffer.
  `T0Collect.StatusMisread` is an input, `T0Collect.FirstAnswerExact` the exact condition.
- The number of historical bytes of a contactless card is computed in eight bits. An ATS whose length does not cover
  its T0 and interface bytes makes more than 250 bytes of it, and they are written over the 33 bytes of the store.
  `Contactless.AtsFitsExactly` is the exact condition, `Contactless.BareAtsOverruns` an ATS that fails it, and
  `CardReader.Reader.Session` shows that nothing else breaks the invariant of a session.
- FF CA with an Le above the number of bytes there are pads its answer without a look at the caller's buffer:
  `CardReader.AnswerFits` is the exact condition under which it fits, `CardReader.PaddingOverruns` a request for which
  it does not.
- Staging has no bound, and a signature above 768 bytes is copied over the end of its message field
  (`Flash.FourBlocksTooMany`, `Flash.Uploader.UploadFlash`). A declared length beyond a staging command, or beyond the
  data of a command with tags, is taken at its word (`Flash.Uploader.Upload`, `Tlv.ValueBehindData`).
- A configuration is written without a look at what can be read back: blanks, comment signs and lines above 255
  characters are lost, and an empty debug file name is not written, so the built-in default returns on the next
  start (`Config.NoDebugFileForgotten`). `Config.RestoredExactly` is the exact condition of a full round trip.
- Matching replies by an 8-bit number rests on the channel being closed after a failed read
  (`Ccid.ReopenedLinkMismatches`).

## Model

| member | source | states |
|---|---|---|
| KeyFile.ChecksExact | cjeca32/EC30Reader.cpp:858-955 | the validator's checks pass at an offset exactly when a record of the grammar stands there, and the fields it reads are that record |
| KeyFile.HeadUnique | cjeca32/EC30Reader.cpp:858-955 | at most one record can be read at an offset |
| KeyFile.ReadsExact | cjeca32/EC30Reader.cpp:854-960 | reading records one after the other accepts exactly the serialised chains with rising versions |
| KeyFile.AcceptsExactlyKeyFiles | cjeca32/EC30Reader.cpp:838-962 | a byte string is accepted iff it is a key file, and it is one in one way only |
| KeyFile.ShortestFile | cjeca32/EC30Reader.cpp:858-921 | the bytes of the shortest file, a root record with one byte of modulus and exponent |
| KeyFile.ShortestSigned | cjeca32/EC30Reader.cpp:863-954 | the bytes of the shortest signed record |
| KeyValidator.NewestIsUnique | cjeca32/EC30Reader.cpp:894-922 | the newest version of a key number is carried by one record only |
| KeyValidator.EstimateBound | cjeca32/EC30Reader.cpp:894-908 | at most 256*255 records, and the estimate cannot overflow 32 bits |
| KeyValidator.TimeTold | cjeca32/EC30Reader.cpp:894-908 | record by record the time grows by 5000 where a slot is superseded and by 1000 for a key number that is new to a blank slot |
| KeyValidator.SilentExactly | cjeca32/EC30Reader.cpp:852-961 | the estimate stays 0 exactly when, with a blank slot, not even the first header can be read, and otherwise nothing that can be read would supersede a slot |
| KeyValidator.RefusedUnseen | cjeca32/EC30Reader.cpp:856-893 | every file refused before its first key number is looked at is no key file and asks for no update |
| KeyValidator.CheckHeader | cjeca32/EC30Reader.cpp:858-893 | the checks up to the first inner length, with no read outside the file |
| KeyValidator.CheckKey | cjeca32/EC30Reader.cpp:909-923 | the checks on modulus and exponent length |
| KeyValidator.CheckSignature | cjeca32/EC30Reader.cpp:926-954 | the checks on the signature block |
| KeyValidator.CheckRecord | cjeca32/EC30Reader.cpp:858-955 | one record: accepted iff it passes, with its cost and table entry |
| KeyValidator.IsKeyUpdateRecommended | cjeca32/EC30Reader.cpp:838-962 | success iff the bytes are a key file; then KV holds the newest versions and the time is 5000 per superseding record plus 1000 per key number when a slot is blank; no overflow ever |
| KeyUpdate.Sticky | cjeca32/EC30Reader.cpp:724-825 | after an error the run is over |
| KeyUpdate.RunJustified | cjeca32/EC30Reader.cpp:724-825 | over every run, each key sent, verified or not, fills a blank slot with its newest version or supersedes a cached slot and names a cached signer; each verification belongs to such a key |
| KeyUpdate.RunTurned | cjeca32/EC30Reader.cpp:724-825 | what every record does to every run: nothing, an error, or mask, key, mask and verification up to the first message refused, with the slots read again only after all four |
| KeyUpdate.RunPaired | cjeca32/EC30Reader.cpp:750-814 | over every run each key has a mask before it, and a mask and its own verification behind it unless the run failed there |
| KeyUpdate.SuccessSentAll | cjeca32/EC30Reader.cpp:724-827 | a run that succeeds sent and verified every record that filled a blank slot or superseded a slot at its turn |
| KeyUpdate.SizeIsBytes | cjeca32/EC30Reader.cpp:728-733 | the count of bytes left is that of the serialised records |
| KeyUpdate.RunFits | cjeca32/EC30Reader.cpp:741-802 | nothing longer than 800 bytes is ever copied or sent |
| KeyUpdate.BrokenLinkStops | cjeca32/EC30Reader.cpp:772-821 | a record that skips a link ends the run with the data-corrupt error and nothing more is sent |
| KeyUpdate.SuccessIsUpToDate | cjeca32/EC30Reader.cpp:724-827 | with a reader that stores what it accepts, success leaves no slot older than any signed record |
| KeyUpdate.KeyFileStands | cjeca32/EC30Reader.cpp:720-739 | in an accepted file the records stand back to back from offset 0 to the end |
| KeyUpdate.StandingBytes | cjeca32/EC30Reader.cpp:728-802 | every offset the second walk reads or copies lies in the file and holds the field meant |
| KeyUpdate.KeyUpdater.SendKey | cjeca32/EC30Reader.cpp:750-770 | mask, key, mask, verification, slots read again; stops at the first error |
| KeyUpdate.KeyUpdater.Copy | cjeca32/EC30Reader.cpp:741-802 | a copy of at most 800 bytes from inside the file |
| KeyUpdate.KeyUpdater.Visit | cjeca32/EC30Reader.cpp:724-825 | one turn of the unchecked walk does the step of the record that stands there |
| KeyUpdate.KeyUpdater.KeyUpdate | cjeca32/EC30Reader.cpp:703-828 | the walk visits exactly the validated records, ends with nothing left, and leaves the log, slots and result of the run over those records; for other files nothing is sent, and the result is success exactly when the file asks for no update |
| T0Chain.ChainFits | cjeca32/EC30Reader.cpp:1360-1373 | the response of case 2 never exceeds the caller's buffer |
| T0Chain.CutIsSound | cjeca32/EC30Reader.cpp:1354-1358 | the two bytes moved down are the status word, whatever the buffer held, iff the answer repeats its status word at offset La |
| T0Chain.LinkPayload | cjeca32/EC30Reader.cpp:1339-1359 | a link is a run of bare 6Cxx answers, each followed by the same request with the length asked for, and one last answer of which the cut to Le is kept |
| T0Chain.ChainPayload | cjeca32/EC30Reader.cpp:1332-1373 | case 2 as a transcript, cut or not: the response is the data kept of every answer and the last status word; each GET RESPONSE has the SW2 before it as Le and first P3; on failure the requests up to the failure |
| T0Chain.RawLinkHonest | cjeca32/EC30Reader.cpp:1334-1359 | for an honest card the buffer holds what the answers say, whatever it held before |
| T0Chain.LinkExact | cjeca32/EC30Reader.cpp:1334-1359 | the buffer agrees with the answers for every old contents iff, wherever P3 was raised above Le, the answer has its status word at offset La |
| T0Chain.LeftoversReturned | cjeca32/EC30Reader.cpp:1354-1358 | Le 1 corrected to 5 and then an error without data: the caller gets three bytes, two of them left over in the buffer |
| T0Chain.RawChainHonest | cjeca32/EC30Reader.cpp:1332-1373 | for an honest card both loops return the chain of its answers |
| Tpdu.T0Channel.CcidTransmit | cjeca32/EC30Reader.cpp:1090-1137 | the answer lands at the given place, everything else in the buffer stays; an answer too long is refused |
| Tpdu.T0Channel.CutInPlace | cjeca32/EC30Reader.cpp:1354-1358 | the buffer and length after the move for any contents; the cut of the answer where the bytes moved are its status word |
| Tpdu.T0Channel.FetchLink | cjeca32/EC30Reader.cpp:1334-1359 | for every card the inner loop is the recursion that carries the buffer; for an honest card it is the link over answers |
| Tpdu.T0Channel.AppendLink | cjeca32/EC30Reader.cpp:1332-1371 | for every card one turn of the outer loop appends the bytes in use to the response, or refuses when they do not fit |
| Tpdu.T0Channel.FetchChain | cjeca32/EC30Reader.cpp:1319-1374 | for every card and every old contents of the buffer both loops are the recursion that carries the buffer |
| Tpdu.T0Channel.Case2 | cjeca32/EC30Reader.cpp:1319-1374 | case 2 for every card; for honest cards the chain over answers; with the PC/SC norm exactly one TPDU, its answer unchanged |
| T0Collect.FetchedWhole | cjeca32/EC30Reader.cpp:1379-1437 | case 4 over answers: success returns the data of every answer that was 61xx, 6Cxx or a first bare warning, in order, and the first other answer whole |
| T0Collect.FetchedFails | cjeca32/EC30Reader.cpp:1387-1426 | a failure is that of the exchange behind such answers: the reader gone or refusing, or no room left |
| T0Collect.FinalStatus | cjeca32/EC30Reader.cpp:1410-1437 | with a card that always answers with a status word the caller never gets 61xx or 6Cxx |
| T0Collect.BareFirst | cjeca32/EC30Reader.cpp:1387-1412 | a bare first answer is the result exactly when it is neither 61xx, 6Cxx, 62xx, 63xx nor 9xxx other than 9000 |
| T0Collect.HarmlessConcurs | cjeca32/EC30Reader.cpp:1387-1437 | after a harmless first answer the loop over the buffer does what the answers say, for every card and every old contents |
| T0Collect.FirstAnswerExact | cjeca32/EC30Reader.cpp:1387-1428 | it does so for all later answers and all old contents iff the first answer carries no data, or one byte of it and neither half of its status word is 61 or 6C |
| T0Collect.StatusMisread | cjeca32/EC30Reader.cpp:1395-1412 | one byte of data and status 9061: the second half is taken for a first one, and a GET RESPONSE goes out that the card did not ask for |
| Tpdu.T0Channel.TransmitAt | cjeca32/EC30Reader.cpp:1420-1427 | an exchange into the middle of the buffer: the answer at its place, refused, or written over the end |
| Tpdu.T0Channel.SendData | cjeca32/EC30Reader.cpp:1387-1428 | for every card and every old contents of the buffer case 4 is the recursion over the buffer; only GET RESPONSE follows the command |
| Tpdu.T0Channel.AskMore | cjeca32/EC30Reader.cpp:1414-1427 | one GET RESPONSE; after a bare status word it asks for Le bytes where 0 < Le < SW2 and else for SW2 |
| Tpdu.T0Channel.CollectAll | cjeca32/EC30Reader.cpp:1410-1428 | for every card the GET RESPONSE loop is the recursion over the buffer, whatever P3 was chosen; used and free room add up to 258 |
| Tpdu.T0Channel.FollowWarning | cjeca32/EC30Reader.cpp:1398-1428 | a warning is followed by one GET RESPONSE for Le bytes, its answer over the warning |
| Tpdu.T0Channel.Case4 | cjeca32/EC30Reader.cpp:1379-1437 | case 4 for every card, with the place where the driver leaves its buffer and the first GET RESPONSE byte for byte; after a harmless first answer result, error and response are those of the recursion over answers, at most 258 bytes |
| Tpdu.T0Channel.Transmit | cjeca32/EC30Reader.cpp:1310-1449 | the length of the command decides the case; cases 1 and 3 are one TPDU, anything else is refused with nothing sent |
| Tpdu.CasesAgree | cjeca32/EC30Reader.cpp:1312-1447 | the four cases are those of the short APDU; extended and ill-formed commands are refused |
| Atr.GetBits | cjeca32/BaseReader.cpp:495-505 | the number of set bits |
| Atr.WalkForward | cjeca32/BaseReader.cpp:519-537 | over a structured ATR the walk counts all interface bytes, finds the historical bytes and knows whether another protocol is named |
| Atr.WalkBackward | cjeca32/BaseReader.cpp:519-537 | wherever the walk ends inside the received bytes it has walked over a structure |
| Atr.AcceptsStructured | cjeca32/BaseReader.cpp:507-566 | every structured ATR is accepted, with the exact offset and number of historical bytes |
| Atr.AcceptedIsStructured | cjeca32/BaseReader.cpp:507-566 | accepted bytes of the announced length are a structured ATR with a correct check byte |
| Atr.CheckLenExact | cjeca32/BaseReader.cpp:507-566 | the bytes are a structured ATR iff they are accepted and, where another protocol is named, have the announced length |
| Atr.RefusalTold | cjeca32/BaseReader.cpp:538-564 | when an ATR is refused for its check byte and when for its length |
| Atr.TrailingBytesAccepted | cjeca32/BaseReader.cpp:538-548 | an accepted ATR with trailing bytes that is no structured one |
| Atr.Lrc | cjeca32/BaseReader.cpp:540-545 | the XOR of all bytes behind the first |
| Atr.WalkLevels | cjeca32/BaseReader.cpp:519-537 | the pointer loop is the walk, and its 8-bit counters stay small |
| Atr.CheckLen | cjeca32/BaseReader.cpp:507-566 | result, historical offset and length on every received store; the offset of the card before stays when the walk finds none |
| AtrRules.LevelsStanding | cjeca32/BaseReader.cpp:597-679 | the levels read off the bytes are those of the structure, as deep as the driver looks |
| AtrRules.RepresentsUnique | cjeca32/BaseReader.cpp:507-566 | received bytes can be read as a structured ATR in one way only |
| AtrRules.RoundTrip | cjeca32/BaseReader.cpp:597-683 | parameters, rule violations and protocols read out of a serialised ATR are those of its structure, with defaults where it is silent |
| AtrRules.FindingsTold | cjeca32/BaseReader.cpp:597-683 | over the received bytes: TA1, TC1, TC2, TA3, TB3 and TC3 at their places or 11, 0, 10, 20, 4D and 0, each broken rule as a condition on bytes, the mode and the protocols named |
| AtrRules.TakeLevel | cjeca32/BaseReader.cpp:598-620 | the optional bytes of one level, in order |
| AtrRules.TakeLevels | cjeca32/BaseReader.cpp:597-679 | the first three levels |
| AtrRules.TakeFields | cjeca32/BaseReader.cpp:597-683 | TA1, TC1, TC2, TA3, TB3, TC3 and the verdict on the rules |
| Contactless.StructureSerialized | cjeca32/ECRReader.cpp:38-157 | the stand-in for a contactless card is a structured ATR that names T=0 and T=1 |
| Contactless.ContactlessAccepted | cjeca32/ECRReader.cpp:38-157 | it passes `check_len` with the historical bytes at offset 4, T0 low nibble length-5 and XOR zero |
| Contactless.StorageHistTold | cjeca32/ECRReader.cpp:99-117 | the historical bytes of a storage card, byte by byte, for each kind |
| Contactless.AtsTold | cjeca32/ECRReader.cpp:77-89 | the historical bytes are those behind TL, T0 and the interface bytes that T0 announces |
| CardReader.StructuredVerdict | cjeca32/BaseReader.cpp:568-699 | of a structured ATR: usable iff the rules hold for the structure, its parameters, and its historical bytes at their offset |
| CardReader.VerdictTold | cjeca32/BaseReader.cpp:593-699 | over the received bytes: usable iff 3B or 3F, accepted by `check_len` and no rule broken; worth a second try iff the first look fails for a rule or the length |
| CardReader.ProtocolsTold | cjeca32/BaseReader.cpp:700-735 | over the received bytes: protocols on offer, the one already set and the state |
| CardReader.UsableNamesT0OrT1 | cjeca32/BaseReader.cpp:700-720 | without a broken rule TD1 names T=0 or T=1, so the late error for a specific-mode card cannot occur |
| CardReader.Pick | cjeca32/CCIDReader.cpp:234-259 | T=0 iff offered and requested, else T=1 iff offered and requested |
| CardReader.GrantsTold | cjeca32/CCIDReader.cpp:289-297 | a card set to a protocol accepts a caller that names it or leaves the choice open |
| CardReader.GrantedIsChosen | cjeca32/CCIDReader.cpp:287-298 | a card already set to a protocol grants exactly that one, offered and requested |
| CardReader.Reader.Transfer | cjeca32/CCIDReader.cpp:129-139 | a reply that reports no active card clears protocol and ATR |
| CardReader.Reader.PowerDown | cjeca32/EC30Reader.cpp:980-1050 | exactly one ICCPOWEROFF; the status is that of its reply |
| CardReader.Reader.AnalyseOther | cjeca32/BaseReader.cpp:736-769 | memory cards and contactless type A get the raw protocol, memory cards with parameters their layout in a SETPARAMETERS, and no other card anything |
| CardReader.OtherTold | cjeca32/BaseReader.cpp:736-762 | which answers belong to memory cards and contactless cards |
| CardReader.LayoutTold | cjeca32/BaseReader.cpp:742-752 | page size and address bytes of an I2C card |
| CardReader.Reader.Adopt | cjeca32/BaseReader.cpp:700-735 | protocols and state of a usable card |
| CardReader.Reader.Inspect | cjeca32/BaseReader.cpp:595-691 | what speaks against an asynchronous card, its parameters and historical bytes; adopted when nothing does |
| CardReader.Reader.Judge | cjeca32/BaseReader.cpp:593-697 | the verdict on an asynchronous card; powered down exactly when it is final and bad |
| CardReader.Reader.AnalyseATR | cjeca32/BaseReader.cpp:568-771 | verdict, parameters, protocols and historical bytes of every ATR, over the received bytes and for a structured one as its structure says; none on offer for an asynchronous card that is not usable |
| CardReader.Reader.PowerUp | cjeca32/EC30Reader.cpp:985-1048 | one ICCPOWERON; status and ATR are those of its reply, error code by error code; another turn exactly when that ATR is worth a second try |
| CardReader.Reader.Reset | cjeca32/EC30Reader.cpp:964-1052 | terminates; a second ICCPOWERON exactly when the first brought an ATR worth a second try, and at most two ICCPOWEROFF; status and ATR are those of the reply to the last, success for every good data block; a usable card is adopted with what its ATR says |
| CardReader.Reader.Negotiate | cjeca32/CCIDReader.cpp:212-286 | the protocol picked is sent to the reader with its timing and holds exactly when the reader agrees; nothing is sent for a contactless card |
| CardReader.Reader.SetProtocol | cjeca32/CCIDReader.cpp:201-301 | status, protocol and message for every state; success on a 3B/3F card returns exactly one protocol, offered by the card and requested by the caller |
| CardReader.Reader.GetState | cjeca32/CCIDReader.cpp:169-199 | the state reported and kept, as the reply says; an absent or unpowered card has no protocol |
| CardReader.Reader.Seal | cjeca32/ECRReader.cpp:118-132 | header, historical bytes and check byte over the store are the stand-in ATR |
| Contactless.AtsFitsExactly | cjeca32/ECRReader.cpp:74-89 | the 8-bit count keeps header, historical bytes and check byte inside the 33 bytes of the store iff the length of the ATS covers its T0 and interface bytes |
| Contactless.BareAtsOverruns | cjeca32/ECRReader.cpp:77-89 | an ATS that is only its length byte makes 260 bytes |
| CardReader.Reader.StandInTypeA | cjeca32/ECRReader.cpp:43-133 | type A: the historical bytes of the ATS, or the storage-card template; the store is overrun exactly by an ATS whose length does not cover it |
| CardReader.Reader.StandInTypeB | cjeca32/ECRReader.cpp:134-156 | type B: the eight bytes behind the kind byte |
| CardReader.Reader.ResetContactless | cjeca32/ECRReader.cpp:31-162 | status and ATR of the card itself as for any reset; a contactless card gets the stand-in ATR of its kind, its serial number and T=1, or the status that stopped it; the exact condition under which the store is overrun |
| CardReader.AnswerFits | cjeca32/ECRReader.cpp:275-333 | the answer to FF CA fits the caller's buffer iff that is too small for the data or has room for Le and a status word |
| CardReader.AnswerTold | cjeca32/ECRReader.cpp:275-333 | the answer to FF CA: the data, zeros up to Le and 9000 or 6282, or 6Cxx with the length |
| CardReader.PaddingOverruns | cjeca32/ECRReader.cpp:311-316 | 15 historical bytes, Le 255 and a buffer of 17: the answer has 257 bytes |
| CardReader.Reader.GetData | cjeca32/ECRReader.cpp:272-334 | FF CA 00 00 and FF CA 01 00 return exactly the serial number and the historical bytes, padded for a larger Le, or 6Cxx |
| CardReader.Reader.Exchange | cjeca32/EC30Reader.cpp:1090-1137 | one XFRBLOCK and the status of each exit; nothing is sent for a command above 1014 bytes; ICCPOWEROFF follows exactly on a mute card or a protocol error |
| CardReader.Reader.Session | cjeca32/CCIDReader.cpp:129-301 | every run of resets, transfers, queries and selections keeps at most 33 ATR bytes and no active protocol but an offered one, up to a reset that meets an ATS whose length does not cover it |
| Ccid.StaleOrFresh | cjeca32/CCIDReader.cpp:112-127 | what is unread answers this request or the one before, and the 8-bit number tells which |
| Ccid.CallMatches | cjeca32/CCIDReader.cpp:100-140 | a successful call returns a reply to its own request and leaves only replies to it in flight |
| Ccid.RunMatches | cjeca32/CCIDReader.cpp:100-140 | the same for every call of every run |
| Ccid.CallTold | cjeca32/CCIDReader.cpp:112-139 | over the wire: the first reply with the number of the request is returned, what stood before it is dropped, and the number goes up by one modulo 256; without such a reply the link is closed |
| Ccid.AnsweredInTime | cjeca32/CCIDReader.cpp:100-140 | a request that the reader answers in time is answered to the caller |
| Ccid.CcidLink.Transfer | cjeca32/CCIDReader.cpp:100-140 | the drain loop is that call, across failures of read and write |
| Serial.RoundTrip | cjeca32/SerialUnix.cpp:276-386 | what was framed is received, whatever follows it on the line |
| Serial.FrameTold | cjeca32/SerialUnix.cpp:142-149 | a frame is the message, the sum of its bytes modulo 256 and their XOR |
| Serial.HeadTold | cjeca32/SerialUnix.cpp:291-320 | kind and size of a message by its first bytes |
| Serial.SubstitutionDetected | cjeca32/SerialUnix.cpp:339-382 | one byte changed behind the length field is always rejected |
| Serial.RetriesRecover | cjeca32/SerialUnix.cpp:390-403 | after any number of damaged frames the next intact one is returned: one NAK each, then one ACK |
| Serial.SerialPort.WriteFully | cjeca32/SerialUnix.cpp:151-166 | all bytes go out in order, however they are split into calls; a failing call leaves a prefix sent and the line closed |
| Serial.SerialPort.Checksums | cjeca32/SerialUnix.cpp:142-149 | the additive checksum modulo 256 and the XOR |
| Serial.SerialPort.WriteLowlevel | cjeca32/SerialUnix.cpp:132-195 | exactly one frame goes out, or a prefix of it and the line is closed |
| Serial.SerialPort.ReadForced | cjeca32/SerialUnix.cpp:230-252 | exactly the next n bytes, however they are split into calls, or failure |
| Serial.SerialPort.ReadHead | cjeca32/SerialUnix.cpp:291-320 | the kind and the size of the message at the head of the line |
| Serial.SerialPort.ReadMessage | cjeca32/SerialUnix.cpp:291-349 | message and checksums, or failure when they do not fit |
| Serial.SerialPort.ReadLowlevel | cjeca32/SerialUnix.cpp:256-386 | one frame off the line and its ACK or NAK; lost when the line ends or the answer cannot be written |
| Serial.SerialPort.Read | cjeca32/SerialUnix.cpp:390-403 | the first good frame, with one answer per frame taken, and the line left behind it |
| Serial.SerialPort.Write | cjeca32/SerialUnix.cpp:199-227 | the frame is sent once per answer taken off the line up to the first ACK; without one the line is closed |
| Flash.StagedSinceFlag | ctapi/ctapi_special.cpp:29-177 | what is staged is exactly the data since the last first-block or abort flag |
| Flash.StageTold | ctapi/ctapi_special.cpp:111-132 | P1 20 starts over, 40 throws everything away, otherwise the data is appended |
| Flash.Uploader.Upload | ctapi/ctapi_special.cpp:29-177 | the two buffers hold what the history of commands says; a key file shares the buffer of the module; the driver reads behind the command exactly when the declared length does |
| Flash.Uploader.SendBlocks | cjeca32/EC30Reader.cpp:576-595 | the blocks carry the module from the start block to its end, and no signature is sent among them |
| Flash.Uploader.SendModule | cjeca32/EC30Reader.cpp:563-595 | a start block of 256 bytes and update blocks of at most 256, each behind a flash mask, carry the module |
| Flash.Uploader.LoadModule | cjeca32/EC30Reader.cpp:555-619 | on success all of the module was carried from its start block on, then the signature was sent once and last; an earlier failure sends no signature; one above 768 bytes is copied over the end of its field |
| Flash.FourBlocksTooMany | ctapi/ctapi_special.cpp:134-177 | four signature commands of 255 bytes stage more than the 768 bytes of the message field |
| Flash.Uploader.UploadFlash | ctapi/ctapi_special.cpp:181-215 | invalid iff a buffer is empty, wrong size iff the module is below 258 bytes; otherwise messages go out until the reader refuses one, whose result is returned, and success means that everything was carried and verified; the copy fits exactly up to 768 bytes of staged signature |
| CtApi.NextConsistent | ctapi/ctapi.cpp:670-1122 | every call keeps context numbers and ports distinct and at most one backend per context |
| CtApi.RunConsistent | ctapi/ctapi.cpp:670-1484 | the same over every run, across failed openings and lost devices |
| CtApi.InitTold | ctapi/ctapi.cpp:670-1312 | a terminal is opened exactly when every condition holds, and then it stands last in the table with its one backend |
| CtApi.DataTold | ctapi/ctapi.cpp:1364-1386 | results 0, -1 and -11 change nothing; any other takes the handle from that context and from no other |
| CtApi.CloseUndoesInit | ctapi/ctapi.cpp:1259-1484 | closing restores the table from before the opening, even when the device was lost in between |
| CtApi.Table.Find | ctapi/ctapi.cpp:184-213 | a context with that number, or proof that there is none |
| CtApi.Table.Open | ctapi/ctapi.cpp:670-1122 | a context is added exactly when no exit is taken; every other exit leaves table, count and handles as they were; an error code that narrows to 0 is the only false success |
| CtApi.Table.Command | ctapi/ctapi.cpp:1317-1389 | an unexpected result takes the handle from that context and from no other |
| CtApi.Table.Release | ctapi/ctapi.cpp:1441-1484 | the context is removed, its handle closed once and the count lowered once |
| CtApi.Table.Start | ctapi/ctapi.cpp:1259-1312 | success iff a context was added; a terminal that does not identify itself is closed again |
| CtApi.Table.Session | ctapi/ctapi.cpp:448-1484 | over every run the init count is the number of contexts, open handles are those owned, and the table is the one the run explains |
| Config.HexRoundTrip | cjeca32/config.cpp:211-211 | eight hexadecimal digits read back as the number printed |
| Config.ReadOneLine | cjeca32/config.cpp:56-79 | a line that fits the buffer is read as one line |
| Config.AssignmentRead | cjeca32/config.cpp:106-139 | a printed assignment is read as that name and that value |
| Config.TextRead | cjeca32/config.cpp:52-174 | reading the text is reading its lines |
| Config.VarsRead | cjeca32/config.cpp:167-169 | all printed variables are inserted, and what was there before wins |
| Config.GenericRead | cjeca32/config.cpp:142-166 | flags and both file names are restored where they were printed |
| Config.RoundTrip | cjeca32/config.cpp:198-238 | reading what was written restores flags, file names and the variable map |
| Config.LinesTold | cjeca32/config.cpp:210-227 | the lines of the file, spelled out |
| Config.LineTold | cjeca32/config.cpp:69-139 | blanks, comments and line ends around an assignment do not matter; groups are known by name |
| Config.ReadKeeps | cjeca32/config.cpp:52-174 | whatever the text, every name and value read from it is clean and fits a line |
| Config.LongFileLost | cjeca32/config.cpp:56-79 | a file name too long for its line is cut and no later line can bring it back |
| Config.RestoredExactly | cjeca32/config.cpp:198-238 | any configuration, read over a start without variables and with file names a file can hold, comes back whole iff every name and value is clean, every line has at most 255 characters, and an empty file name was empty beforehand |
| Config.NoDebugFileForgotten | cjeca32/config.cpp:212-251 | switching the debug file off does not survive a restart |
| Config.Skip | cjeca32/config.cpp:86-88 | the pointer stops at the first character that ends the run |
| Config.ParseLine | cjeca32/config.cpp:69-139 | what one line says, comments and line ends taken off |
| Config.ParseAssignment | cjeca32/config.cpp:106-126 | name, equals sign and value, blanks skipped |
| Config.ParseValue | cjeca32/config.cpp:127-139 | the run of non-blanks behind the equals sign |
| Config.ReadConfig | cjeca32/config.cpp:52-174 | the line loop is the reading of the text, whatever the text |
| Config.WriteConfig | cjeca32/config.cpp:198-238 | the text printed is that of the configuration's lines |
| Config.PrintVars | cjeca32/config.cpp:220-227 | one line for every variable with a name and a value |
| Apdu.DecodeSound | cjeca32/CCIDReader.cpp:433-484 | whatever is decoded encodes back to the command |
| Apdu.DecodeComplete | cjeca32/CCIDReader.cpp:433-484 | whatever is encoded is decoded to the same case, data and lengths |
| Apdu.ExtendedTold | cjeca32/CCIDReader.cpp:453-469 | extended lengths stand behind a zero byte, high byte first |
| Apdu.AcceptsExactlyTheCases | cjeca32/CCIDReader.cpp:433-484 | a command is accepted iff it is one of the seven cases, and of one only |
| Apdu.Decode | cjeca32/CCIDReader.cpp:433-484 | Lc, Le and a data field inside the command, as the case says; REQUEST ICC without Le gets Le 0 |
| Tlv.FirstFound | cjeca32/BaseReader.cpp:49-67 | in a row of fields the first one with the tag is found with its whole value, unless it is the last one and empty |
| Tlv.MissingNotFound | cjeca32/BaseReader.cpp:49-67 | a tag that no field has is not found |
| Tlv.ValueBehindData | cjeca32/BaseReader.cpp:57-62 | three bytes of data that declare a value of 255: it is returned although it lies behind the data |
| Tlv.GetTag | cjeca32/BaseReader.cpp:49-67 | the pointer loop is the walk over the fields, on any data, and reads nothing behind it |
| PinModify.NoWrapAccepted | cjeca32/CCIDReader.cpp:2067-2101 | no position that passes the range check is the product of a wrap-around |
| PinModify.LayoutTold | cjeca32/CCIDReader.cpp:2067-2255 | exactly which pairs of positions are accepted, and where the two blocks go |
| PinModify.WindowTold | cjeca32/CCIDReader.cpp:2262-2266 | the empty PIN block, byte by byte |
| PinModify.OldWindow | cjeca32/CCIDReader.cpp:2260-2266 | writing the new block leaves the old one intact iff they do not overlap |
| PinModify.PutWindow | cjeca32/CCIDReader.cpp:2262-2266 | an empty PIN block at its place and nothing else changed |
| PinModify.BuildTemplate | cjeca32/CCIDReader.cpp:2065-2291 | accepted exactly for positions and lengths in range; both blocks covered by Lc, command at most 260 bytes, everything outside the blocks as requested |

## Left out

- USB, libusb and termios access, device enumeration and the names of readers: plumbing over libraries.
- Debug output, dialogs, beeping, reader subclasses with product strings; byte order is little-endian throughout.
- Locking: the sequential build of the CT-API is modelled, and its closing of a failed opening is a plain call.
- Interrupted system calls, timeouts and sleeping on the serial line; a call that writes moves at least one byte or fails for good, and a read that fails is the end of the input.
- Messages longer than the reader's input buffer, which are refused before anything is written, in `Ccid`.
- PERFORM VERIFICATION and the other PIN formats of MODIFY VERIFICATION.
- Tpdu.T0Channel.CollectAll: the byte the driver compares with Le on later turns is arbitrary, wherever it lies; the responses do not depend on it.
- CardReader.Reader.AnalyseOther: a size field of 0 in the answer of an I2C card is a shift by -1, whose outcome is a parameter.
- The PACE vendor control, the fixed-answer file system of the reader and the FF 9A identification strings: tables that one branch settles.
- The Windows, Windows CE and module-test variants, and the back ends for older readers: each is an opaque handle in `CtApi`.
- Atr.CheckLen: the store has two bytes behind the received ones, which a truncated ATR makes the driver look at.
- KeyUpdate.SuccessIsUpToDate: needs a reader that stores what it accepts; that is the reader's part.
- Flash.Uploader.Upload: the key update that the last block of a key file triggers is the separate call in `KeyUpdate`.
- Flash.Uploader.LoadModule: module and reader information read back afterwards is not modelled.
- Config.ReadConfig: numbers beyond the range of the C library's conversion, and errors of the file system.
- CtApi.Table.Open: how a port number selects a device is one yes-or-no answer of the environment.
- Contexts, the ATR store and text are values here; aliasing between them in the C++ objects is not captured.
