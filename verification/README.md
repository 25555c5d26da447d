# Verified model of the LT213A e-paper firmware

The firmware receives images over Bluetooth, streams them to an e-paper panel, keeps its
configuration in two flash pages and protects its commands with an AES-based session layer. This
project models those parts in Dafny and proves what they promise. `dafny verify dfyconfig.toml`
checks everything.

Code that changes state in the firmware changes state here: the AES modes work in place on arrays,
the flash device, the configuration store, the session, the panel driver and the transfer protocol
are classes with the firmware's fields, and their methods are specified against functions and
predicates about which the main results are proved. The outside world is left as wild as the
firmware has to expect: flash holds anything at the start and may fail or lose power after any word,
every callback and every AES block call may fail, the inflater answers what it likes within its
contract, and the threads of `src/main.c` interleave at every shared access.

## What is modelled and proved

- **Configuration store** (`Checksum`, `Container`, `Flash`, `Slots`, `ConfigStore`, `StoreRuns`).
  A NOR flash of two pages whose writes only clear bits; the checksum, the validator and the packet
  reader; the two-slot transaction. `StoreRuns.Run` is the main result: from arbitrary flash
  content, through any sequence of calls, failures and power cuts, every content the flash passes
  through boots into the configuration at the start or into one that some call sent completely, and
  by `StoreRuns.LastCommitWins` the last commit reported ok is in force unless a later one was
  attempted, however often the generation has wrapped. A call fails exactly when it is not legal or
  flash fails it. `StoreRuns.Upload` shows that the way a container is split into chunks leaves no trace.
- **Checksum strength.** A change confined to two adjacent bytes is *not* always detected, because
  the checksum register leaves its high byte first but is stored low byte first.
  `Checksum.AdjacentChangeDetected` gives the exact condition, and
  `Container.UndetectedAdjacentChange` exhibits an accepted container that differs from the built-in
  one in two adjacent bytes only.
  `Container.AcceptsExactly` states what is accepted as a whole: exactly the containers put together
  from sound packets under the right checksum, so the theorem holds of the verdict, too
  (`Container.AcceptedAdjacentChange`).
- **AES modes** (`BlockModes`, `Crypto`). AES-CMAC against sections 2.3 and 2.4 of RFC 4493, with the
  subkey doubling shown to be multiplication by x in GF(2^128), and CCM against sections 2.2 to 2.5
  of RFC 3610 with M = 12 and L = 2, over any block cipher, with block calls that may fail. What the
  two modes are is stated again octet by octet, by the blocks that are chained and what is laid over
  them (`BlockModes.CmacIsChain`, `BlockModes.SealOctets`).
- **Session layer** (`RateLimit`, `Replay`, `Security`, `SessionRuns`). The replay window as a set
  of accepted counters, nonces that are distinct and apart from every accepted frame's, single-use
  challenges, one owner at a time for the storage that handshake and session share, and, in
  `SessionRuns.Run`, what the replies of whole runs show: the challenge rate over true time,
  although the firmware's clock wraps, and that no two frames sealed in one session carry the same
  nonce.
- **Panel driver** (`Epd`). What goes over SPI byte by byte: the two image planes, their inversion,
  and that nothing but a reset pulse ever reaches a sleeping panel.
- **Transfers** (`PanelIo`, `Frames`, `Protocol`, `ProtocolRuns`, `Uploads`, `PipeRuns`,
  `DirectRuns`). Direct, partial and PIPE transfers composed with the panel driver and the
  configuration store. Everything the protocol does to the outside is recorded, and a grammar says
  which records are sound. What every command sends and reports, and every field it leaves that a
  later command depends on, is stated exactly (`Protocol.Protocol.Handle`). `ProtocolRuns.Run`:
  after any commands, time-outs and failures only whole images were ever refreshed, each directly
  behind its complete picture on the panel's bus, regions only ever changed the image their client
  had named, and a named image is the one on the panel. That name can be read off the record, and a
  client that gives it may change the image (`ProtocolRuns.NamedIsUpdatable`). `PipeRuns.Transmit`
  and `PipeRuns.Converse`: PIPE frames that arrive lost, repeated and out of order are handed on
  exactly once and in order, and an upload that arrives completely, raw or compressed, is shown once
  under its name when no call fails. `DirectRuns.Converse` says the same of direct and partial
  uploads.
- **Commands and sessions** (`Gate`, `GateRuns`). How a command of the main loop reaches the transfer
  protocol: with a security packet in the configuration in force, nothing but a version request is
  executed outside a session, each sealed frame at most once, a repeated PIPE frame is dropped
  silently, and what is executed does exactly what the protocol promises for the command the frame
  carries. `GateRuns.Run` states it for whole runs from power-on, each turn of which is tied to its
  input and to the state before and after it: what is executed under a policy was sealed under the
  key of the session opened last, once, and a session opens only to a proof of the master key on the
  challenge handed out last, which opens no other (`GateRuns.OnlyGenuine`).
- **Threads** (`MainLoop`). The main loop, the write callback, the connection callbacks and the
  notification callbacks as an interleaving of atomic steps: connection isolation, ownership of
  notification tickets, and no lost wakeup.
- **Progress** (`Progress`). What those threads get done: a queued command is never dropped while its
  connection lasts, and six steps of the main loop dispatch it however the others interleave
  (`Progress.ServedSoon`); a write is queued, an answer is delivered, and a notification is turned
  away as busy exactly while one of its connection is on its way.
- **Formats** (`Formats`). The commands and answers of `docs/protocol.md` byte by byte: the fields of a
  start, each refusal and its code, the answers in their order, and the sizes of configuration parts.

Where documentation and code differ, the model follows the code. `docs/protocol.md:34` sends every
future PIPE frame number down the fatal path; the code takes a number 223 to 255 ahead for one of the
last 33 and acknowledges it without using it (`src/protocol.c:255-256`, `PipeRuns.RepeatsAre`).
Before the first frame is accepted a SACK names frame 255 (`src/protocol.c:68`), and its mask stops
being exact when the 32-bit frame count wraps in an endless compressed stream; `Frames.SackDescribes`
says exactly when it is.

## Model

| member | source | states |
|---|---|---|
| BlockModes.DoubleIsTimesX | src/crypto.c:8-13 | doubling a block is multiplication by x modulo x^128 + x^7 + x^2 + x + 1 on its big-endian polynomial |
| BlockModes.OpenIffSealed | src/crypto.c:68-86 | a ciphertext opens to a message exactly when it is the sealing of that message (RFC 3610, section 2.5) |
| BlockModes.SubkeysArePowers | src/crypto.c:17-25 | the subkeys are the encrypted zero block times x and times x^2 in GF(2^128) |
| BlockModes.SubkeyExample | src/crypto.c:17-25 | from the encrypted zero block of the example in section 4 of RFC 4493 come its subkeys |
| BlockModes.CmacIsChain | src/crypto.c:14-31 | the CMAC is the CBC chain over the message cut in order, with a full last block under the first subkey, and a partial or missing one marked, padded and under the second |
| BlockModes.ChainIsCbc | src/crypto.c:20-27 | the chain is CBC run forwards from a zero block |
| BlockModes.AuthOctets | src/crypto.c:35-45 | the authenticated blocks octet by octet: flags 69, nonce and length, the associated data behind its length, and the plain payload padded with zeros |
| BlockModes.SealOctets | src/crypto.c:32-86 | a sealed message octet by octet: the payload under the encrypted counter blocks from 1 on, and the first 12 octets of the chain over the plain payload under counter block 0 |
| Crypto.Aes.Encrypt | src/crypto.h:5-6 | the block boundary: source and destination may alias, any call may fail |
| Crypto.DoubleBlock | src/crypto.c:8-13 | doubling in place equals the doubling of RFC 4493 |
| Crypto.CmacChain | src/crypto.c:20-24 | the loop leaves the CBC chain over all blocks but the last, for every length |
| Crypto.CmacFinish | src/crypto.c:25-28 | padding, subkey choice and last encryption of section 2.4 of RFC 4493 |
| Crypto.OdCmac | src/crypto.c:14-31 | one pass equals AES-CMAC of RFC 4493 for every message; it fails exactly when a block call failed |
| Crypto.CcmStart | src/crypto.c:35-40 | the chain over B_0 and the block holding the associated data |
| Crypto.AbsorbAll | src/crypto.c:41-45 | the chain carried on over the zero-padded payload |
| Crypto.CcmTag | src/crypto.c:32-52 | the encrypted authentication value of sections 2.2 and 2.3 of RFC 3610 |
| Crypto.CcmXor | src/crypto.c:53-67 | the payload in place becomes itself XOR the key stream; nothing around it changes |
| Crypto.CcmOpen | src/crypto.c:73-78 | decryption before the wipe: success exactly when no block call failed and the ciphertext opens |
| Crypto.CcmSeal | src/crypto.c:74-82 | encryption before the wipe: payload and tag of section 2.4 of RFC 3610 |
| Crypto.OdCcm | src/crypto.c:68-86 | in-place CCM for every payload up to 214 bytes, both directions; the 12 bytes behind the payload are the chain over the plain payload under the encrypted counter block 0; a longer payload is refused untouched, a failed one is left zeroed, surrounding bytes never change |
| Crypto.SameBytes | src/crypto.c:77-78 | the accumulated difference is zero exactly when the tags are equal |
| Checksum.ShiftOut | src/config_store.c:20 | one conditional bit step is the masked polynomial step |
| Checksum.ComputeCrc | src/config_store.c:15-23 | both loops compute the CRC, with the first two bytes of a container counted as zero |
| Checksum.CrcFromInjective | src/config_store.c:18-21 | over the same bytes, different register values stay different |
| Checksum.TwoBytesInjective | src/config_store.c:18-21 | from one register value, 16 consecutive message bits determine the result and are determined by it |
| Checksum.DataPairDetected | src/config_store.c:15-23 | two adjacent data bytes from index 2 on cannot change without changing the checksum |
| Checksum.AdjacentChangeDetected | src/config_store.c:29 | a container changed within two adjacent bytes still passes if and only if nothing changed or the change straddles the end of the data in one stated pattern |
| Container.CheckFields | src/config_store.c:46-60 | the per-type field checks, with the key test and the string test as loops |
| Container.OdConfigValidate | src/config_store.c:25-64 | the loop returns the verdict of the recursive packet walk: valid, invalid or unsupported |
| Container.AcceptsExactly | src/config_store.c:25-64 | a container is accepted exactly when its length, version and checksum are right and its data are packets one behind the other, of known types and their sizes, with acceptable fields, none twice and the four required ones among them |
| Container.FirstBadDecides | src/config_store.c:31-63 | behind sound packets, an unknown type or fields the board cannot honour are unsupported; a malformed, repeated or cut-off packet or a string without end is invalid |
| Container.AcceptedFields | src/config_store.c:46-60 | which fields are acceptable: this board and a panel of 104 x 212, a security packet that is on only with a key, and strings that end |
| Container.AcceptedAdjacentChange | src/config_store.c:25-29 | two accepted containers of one length that differ in two adjacent bytes from index 2 on differ exactly by the one pattern across the end of the data |
| Container.CheckValue | src/config_store.c:15-23 | the checksum is CRC-16/CCITT-FALSE: its check value, and over all bytes for the inner one |
| Container.AcceptedPackets | src/config_store.c:31-63 | the packets of an accepted container lie in bounds, no type occurs twice, every required type occurs |
| Container.ConfigPacket | src/config_store.c:92-102 | on every accepted container the reader terminates in bounds, stands only on the validator's packet boundaries, and finds a type exactly when it is there |
| Container.DefaultIsValid | src/config.inc:2-15 | the built-in configuration passes the validator |
| Container.UndetectedAdjacentChange | src/config_store.c:25-29 | two accepted containers of equal length that differ in two adjacent bytes only |
| Flash.Device.Erase | tests/fake_flash.h:6-11 | an erase sets exactly one page to ones, or fails and changes nothing |
| Flash.Device.Write | tests/fake_flash.h:12-23 | a write that only clears bits lands word by word; a failure leaves a prefix of its words, every content in between is recorded |
| Slots.BootIsOk | src/config_store.c:66-80 | a selected slot is valid and its generation is the one kept; none is selected only if none is valid |
| Slots.BootKeepsChoice | src/config_store.c:66-80 | a boot ignores an unfinished target slot |
| Slots.BootTakesNext | src/config_store.c:76-78 | a boot prefers the slot committed one generation later, across the wrap at 2^32 |
| Slots.UncommittedNotOk | src/config_store.c:73 | without its commit word no page is a valid slot, whatever header and data it holds |
| Slots.CommittedIsOk | src/config_store.c:70-75 | a committed page is a valid slot with its generation and exactly its data |
| Slots.OkIsCommitted | src/config_store.c:70-75 | a page is a valid slot exactly when it starts like a committed page of some generation and acceptable data |
| Slots.PageLayout | src/config_store.c:180-183 | a committed page byte by byte: generation, length and inner checksum low byte first, the commit word, the data, erased flash |
| Slots.BootChooses | src/config_store.c:76-78 | a boot takes the one valid slot, and of two the newer |
| Slots.NewerByDistance | src/config_store.c:76 | the newer generation is the one less than 2^31 ahead across the wrap, and never both ways |
| Slots.ProgramChunk | src/config_store.c:168-175 | the read-modify-write of a word only clears bits, adds the chunk behind the received bytes and touches nothing else |
| Slots.ProgramHeader | src/config_store.c:181-183 | header words written over an erased header only clear bits and leave the data |
| Slots.HeaderLanded | src/config_store.c:182 | a power cut after any of the first three header words boots into the old configuration |
| Slots.CommitLanded | src/config_store.c:183-184 | once the commit word has landed a boot finds the new data |
| ConfigStore.Store.Init | src/config_store.c:66-80 | from arbitrary flash content the loop selects the slot the specification selects, and nothing is staged |
| ConfigStore.Store.Get | src/config_store.c:82-90 | the configuration in force is returned, and it always passes the validator |
| ConfigStore.Store.Cancel | src/config_store.c:150 | the open transaction is forgotten; flash and the configuration in force stay |
| ConfigStore.Store.Start | src/config_store.c:151-159 | a transaction opens on the erased unused slot exactly when the size is legal and the erase works; every content on the way boots into the old configuration and the slot in use is untouched |
| ConfigStore.Store.Append | src/config_store.c:161-186 | accepted exactly when the chunk fits, flash works and the container it completes, if any, is acceptable, which is then committed; anything else ends the transaction; every content on the way boots into the old or the complete new configuration, the slot in use untouched |
| ConfigStore.Store.Receive | src/config_store.c:168-177 | the loop over unaligned words leaves exactly the received bytes followed by the chunk, and fails exactly when a flash call does |
| ConfigStore.Store.ReceiveWord | src/config_store.c:169-176 | one word of it, with the outcome of a failed write and of a successful one |
| ConfigStore.Store.Commit | src/config_store.c:181-185 | header then commit word: it succeeds exactly when both writes do and then makes the next generation the one in force; failure keeps the old |
| ConfigStore.Store.WriteHeader | src/config_store.c:182 | the three header words in any failed prefix keep the old choice; a failure is exactly one flash fault |
| ConfigStore.Store.WriteCommit | src/config_store.c:183-184 | the commit word last: a boot takes the next generation exactly when the word has landed, even when its write is reported as failed |
| ConfigStore.Store.Clear | src/config_store.c:188-192 | a zero-length commit makes the built-in configuration effective exactly when flash works, crash-atomically |
| ConfigStore.CheckSlot | src/config_store.c:71-75 | the slot test of a boot |
| StoreRuns.Call | src/config_store.c:150-192 | one call of any kind: when it succeeds, what it and any power cut in it can leave in force, and that a commit reported ok takes effect whatever failed before it |
| StoreRuns.Run | src/config_store.c:66-192 | from arbitrary flash content, through any calls, failures and power cuts: every content boots into the configuration at the start or one sent completely, what is in force and what a boot would find is possible after the outcomes reported, and without flash faults exactly the legal calls succeed |
| StoreRuns.LastCommitWins | src/config_store.c:66-192 | when a commit was reported ok and none was attempted since, it is the only configuration possible, whatever failed or lost power before or after it |
| StoreRuns.Upload | src/config_store.c:161-186 | for any split into chunks the upload succeeds exactly when it fits, flash works and a complete container is acceptable; staging then holds exactly the concatenation, and a committed page is the one a single append would leave |
| RateLimit.AtMostTwenty | src/security.c:44-48 | any 60,000 ms hold at most twenty grants when windows are a minute apart and hold at most ten |
| Replay.RejectsExactly | src/security.c:90-91 | a counter is refused exactly when it was accepted or lies 32 or more behind the largest accepted one |
| Replay.AcceptAdds | src/security.c:94-99 | the update of the window represents the accepted set with the new counter |
| Security.NonceInjective | src/security.c:106-110 | distinct counters of a session give distinct nonces |
| Security.MaterialBytes | src/security.c:61-63 | the 58 bytes of the key derivation: the label in letters, device, client and server challenge, length |
| Security.DerivationBytes | src/security.c:56-72 | session key, session name and both proofs, over the bytes they are computed from |
| Security.StatusBytes | src/security.c:26-58 | the status answers, and the switch and the lifetime of a policy as its bytes give them |
| Security.WireUnwires | src/security.c:84-112 | a sealed frame byte by byte, and that it decrypts to its command under the nonce of its counter |
| Security.NoncesDisjoint | src/security.c:77-78 | all transmit nonces of a session differ, carry the top counter bit, and differ from every accepted frame's |
| Security.RollLimiter | src/security.c:44 | a window opens a full minute of true time after the last, although the clock is 32 bits |
| Security.Sessions.Reset | src/security.c:20-25 | flags, phase, key, id and the record of accepted frames are wiped; the rate limiter stays |
| Security.Sessions.Expire | src/security.c:28-34 | a session ends exactly at its absolute lifetime counted from authentication and is then wiped; otherwise nothing changes |
| Security.Sessions.Auth | src/security.c:37-81 | what every request answers and does to every field and to the history: disabled, limited, a granted challenge, a stale or unexpected answer, a timely one |
| Security.Sessions.Challenge | src/security.c:46-51 | a granted request ends any session, counts against the limit, and leaves a fresh challenge pending or, without randomness, nothing |
| Security.Sessions.Prove | src/security.c:54-81 | a session exactly on the right proof with AES intact, with its key, id and server proof; every failure leaves phase, key, id and flags wiped |
| Security.Sessions.RunsAreLimited | src/security.c:37-58 | the counts of the history every call keeps: ten grants a window, twenty in any 60,000 ms, no verification without a challenge of its own |
| SessionRuns.Ask | src/security.c:37-81 | one request moves the counts seen in its reply and the limiter's history in step, and is turned away only when ten grants share its window |
| SessionRuns.Run | src/security.c:20-112 | any run of requests, frames, expiries and resets, under any policies and clock wraps: from its replies at most twenty granted requests in any 60,000 ms, no more judged answers than challenges handed out than grants, none turned away unless ten grants share its window, and no two frames sealed in one session with the same nonce |
| Security.Sessions.PeerFrames | src/security.c:84-101 | a frame sealed by a peer sharing the session is addressed here and carries its command |
| Security.Sessions.Decrypt | src/security.c:84-101 | a frame is accepted exactly when addressed here, unseen, AES works, and tag and inner length are right; then only the receive window takes in its counter, and any other frame changes no session state |
| Security.Sessions.Encrypt | src/security.c:105-112 | the frame of the next transmit counter, which is used up even when AES fails; refused exactly out of range |
| Security.ReadBe | src/security.c:11-12 | the loop reads the big-endian value |
| Security.WriteBe | src/security.c:13-14 | the loop writes the eight big-endian bytes |
| Epd.ReadyExtends | src/epd.c:55-77 | an awake, disciplined bus stays so under any traffic but the sleep command |
| Epd.SleepDiscipline | src/epd.c:192 | the sleep command puts a ready panel to sleep without breaking the discipline |
| Epd.CarriesOneMore | src/epd.c:152-162 | one more byte on the bus is one more byte of the image, on a new plane exactly when the old one is full |
| Epd.Driver.WaitReady | src/epd.c:66-77 | BUSY is polled every 10 ms while awake: ready exactly when a poll said so, and given up only after 30 s |
| Epd.Driver.Off | src/epd.c:181-202 | the exact traffic of a power-down; the panel sleeps exactly when it reported ready, and one already off sees no traffic |
| Epd.Driver.PowerOn | src/epd.c:95-103 | a panel that does not get ready after the reset is switched off again |
| Epd.Driver.PanelBegin | src/epd.c:93-116 | the exact traffic that starts a transfer; a full one begins behind an all-white old plane |
| Epd.Driver.LoadLuts | src/epd.c:129-137 | five waveforms in order, each with the same number of frames |
| Epd.LutOctets | src/epd.c:131-137 | the bytes of the five waveforms: one phase of the configured length that drives only changing pixels, and zeros |
| Epd.SettingBytes | src/epd.c:104-116 | the settings byte by byte, with the panel's size and, for a whole image, a white old plane |
| Epd.PollBytes | src/epd.c:66-77 | a wait looks at BUSY behind its status command each time, busy every time but the last |
| Epd.Driver.Begin | src/epd.c:93-118 | a full transfer opens on a ready panel with nothing written yet, and fails only on one that does not get ready and is switched off |
| Epd.Driver.Region | src/epd.c:120-145 | an illegal window is refused without traffic, a legal one exactly when the panel does not get ready and is switched off; else the panel reads columns x to x + w - 1 and rows y to y + h - 1 off the bus, and the old plane of that size is open |
| Epd.Driver.Write | src/epd.c:147-165 | the image on the bus grows by exactly the data, complemented and split over the planes for a region |
| Epd.Driver.Finish | src/epd.c:167-179 | the refresh follows directly what is on the bus, then the panel is powered down; success is being ready and going to sleep |
| PanelIo.RefreshIsComplete | src/protocol.c:187-200 | in a sound record every refresh follows exactly the bytes its transfer announced when it opened, and a compressed stream that has ended, was reported done and left no output over |
| PanelIo.RegionOnItsBase | src/protocol.c:78 | in a sound record a region is opened only over the image its client named, refreshed successfully and by the most recent transfer to end |
| PanelIo.ShownIsLastEnd | src/protocol.c:34-39 | the etag of the panel is that of the last transfer if it was refreshed, else none |
| PanelIo.CarriesPicture | src/epd.c:152-162 | a complete image on the bus is its picture: opening command and both planes |
| PanelIo.Panel.Write | src/main.c:242-246 | a write is legal only within an open transfer; a failing one may have shifted out any part |
| PanelIo.Panel.Finish | src/main.c:248 | a refresh is legal only for a complete image, and the whole picture directly precedes it on the bus |
| PanelIo.Panel.Region | src/main.c:249-250 | every region the protocol accepts is legal for the driver |
| PanelIo.Panel.ZlibPoll | tests/test_zlib.py:27-36 | the contract of the inflater: at most a chunk, and output when it says so |
| Frames.SackDescribes | src/protocol.c:63-73 | after m > 0 frames a SACK names frame m - 1, and its mask is exact if and only if the frame count has not wrapped or is more than 32 beyond a wrap |
| Frames.ConfigRoundTrip | src/protocol.c:108-130 | the replies to a configuration read are numbered, at most 20 bytes, announce the length, and put together are the configuration |
| Bytes.FlattenLength | src/protocol.c:249-263 | a raw transfer accepts no more frames than bytes |
| Protocol.Protocol.Abort | src/protocol.c:34-39 | an open transfer is aborted once and the panel's content becomes unnamed; otherwise nothing is sent; every field is as at rest |
| Protocol.Protocol.Stream | src/protocol.c:41-61 | raw bytes that fit are written once, others not at all; what the inflater yields is written in order within the size; a refusal has its reason: a failed call, too much data, or a stream that asks for more after its last piece |
| Protocol.Protocol.StreamZip | src/protocol.c:50-60 | a compressed piece goes through exactly when its last poll asked for more before the end, or reported the end, with all output written; it is refused only for a failed call, output beyond the room left, or a stream that asks for more after its last piece |
| Protocol.Protocol.Drain | src/protocol.c:51-60 | the polling loop terminates, writes everything it polls, and stops early only for one of those reasons |
| Protocol.Protocol.Sack | src/protocol.c:63-73 | the bytes of an acknowledgement, mask least significant byte first |
| Protocol.Protocol.StartRegion | src/protocol.c:75-85 | exactly which refusal applies; success opens a legal region over the named image |
| Protocol.Protocol.FinishTransfer | src/protocol.c:87-97 | acknowledge, refresh, report, or drop the image when the acknowledgement cannot be sent; every field is as at rest, the name the new one only after success |
| Protocol.Protocol.DirectStart | src/protocol.c:165-176 | a well-formed start is accepted exactly when the panel opens and the data sent along goes through; everything it sends, and every field after it |
| Protocol.Protocol.DirectData | src/protocol.c:177-186 | accepted exactly when a direct transfer is open and the data goes through; anything else drops the transfer; everything it sends, and every field after it |
| Protocol.Protocol.End | src/protocol.c:187-201 | an image is shown exactly on a fitting END whose flush goes through with every byte there; everything it sends and reports; what is shown is what the client sent; and after a successful refresh it has the name in the END's four bytes, or else that of the start |
| Protocol.EndBytes | src/protocol.c:199-200 | the name an END of five bytes gives, most significant byte first, and otherwise that of the start |
| Protocol.EndForms | src/protocol.c:189-191 | which lengths and refresh modes an END may have for each kind of transfer |
| Protocol.Protocol.PartialStart | src/protocol.c:212-224 | the exact refusal code by field, region and named image; otherwise accepted exactly when the panel opens and the data sent along goes through; every field after it: a refusal past the header gives the name up, an accepted one holds the new name |
| Protocol.Protocol.PipeStart | src/protocol.c:225-248 | the exact refusal code by header, region and named image; otherwise accepted exactly when the panel opens; every field after it: what it negotiates, and that a region refused or not opened gives the name up |
| Protocol.PipeRefusal | src/protocol.c:227-237 | the start is well formed exactly when its fields are consistent with its flags and its size |
| Protocol.Protocol.PipeData | src/protocol.c:249-273 | a frame is ignored, taken, acknowledged as a repeat or fatal, exactly by its number and length and whether its data goes through; the last raw byte of a full image is acknowledged, answered and shown; every field after it |
| Protocol.Protocol.TakeFrame | src/protocol.c:257-268 | the frame that is due: everything it moves, sends and counts, with the end of a full raw image and the reason for a refusal |
| Protocol.Protocol.ConfigRead | src/protocol.c:108-130 | the numbered replies of the configuration in force, up to the first that cannot be sent |
| Protocol.Protocol.ConfigStart | src/protocol.c:131-141 | accepted exactly when flash works and it is a whole acceptable container, then in force, or the first 200 bytes of a longer one that fits, then staged; a refusal leaves the old one |
| Protocol.Protocol.ConfigAppend | src/protocol.c:142-144 | accepted exactly when a transaction is open, the part fits, flash works and what it completes is acceptable, which is then in force; a refusal ends the transaction |
| Protocol.Protocol.ConfigClear | src/protocol.c:145-147 | accepted exactly without payload and when flash works; it puts the built-in configuration in force |
| Protocol.Protocol.Msd | src/protocol.c:155-160 | the sampled data, or a refusal when sampling fails |
| Protocol.Protocol.Restart | src/protocol.c:202-206 | no transfer is open when the device restarts |
| Protocol.Protocol.Handle | src/protocol.c:99-281 | the dispatch: every command keeps the record sound, the fields describing the open transfer, and display and configuration transfers apart; exactly what each sends and reports and every field it leaves |
| Protocol.Protocol.HandleStart | src/protocol.c:165-248 | the three starts: everything each sends, in both directions, every field after them, and that they forget an open upload |
| Protocol.Protocol.HandleData | src/protocol.c:177-273 | data, frames and ends: everything each moves, sends and reports, every field after them, and that the configuration stays |
| ProtocolRuns.Run | src/protocol.c:34-281 | over any run: only whole images are shown, compressed ones inflated to their end, each at its own place on a disciplined bus directly behind its picture, regions only over their named base, and the name kept is the one the record shows |
| ProtocolRuns.Command | src/main.c:392-408 | a command of the main loop, which ends the transfer when it fails: the name of the image stays the one the record shows |
| ProtocolRuns.NamedIsUpdatable | src/protocol.c:212-219 | a well-formed start of a legal region opens a window on the panel exactly when no transfer is open and it names the image on record |
| ProtocolRuns.NamedIsUpdatableByPipe | src/protocol.c:225-235 | the same for a PIPE transfer of a region |
| PipeRuns.RepeatsAre | src/protocol.c:255-256 | which numbers count as repeats: the last 33 accepted, and those 223 to 255 ahead |
| PipeRuns.Deliver | src/protocol.c:249-273 | a frame within 255 of the accepted count: only the due one is taken, nothing else is written, the answer acknowledges exactly the frames held; if no call fails and the stream fits a fitting one never fails the transfer, raw or compressed, and the last raw one shows a full image once |
| PipeRuns.Transmit | src/protocol.c:249-273 | exactly once: for every order of arrivals the transfer and every image shown hold a first run of the sender's frames; if no call fails, the stream fits and no arrival is fatal, exactly as many as arrived in order |
| PipeRuns.Upload | src/protocol.c:187-273 | a whole PIPE upload, raw or compressed, shows only the client's image, and if its frames all arrive, none is fatal, no call fails and the stream inflates to the image, shows it exactly once under the name of its END |
| PipeRuns.Converse | src/protocol.c:187-273 | the same command by command from the start through the frames to the END, each handed on as the main loop does; the name kept is the one in the END's bytes, else none |
| DirectRuns.Start | src/protocol.c:165-224 | a direct or partial start shows nothing, what it opens is as it announces and holds the data sent along, and a well-formed one, on the image on the panel if it is for a region, opens when no call fails and the data fits |
| DirectRuns.Send | src/protocol.c:177-186 | a piece extends what the transfer holds or ends the transfer, shows nothing, and ends none whose pieces fit while no call fails |
| DirectRuns.Finish | src/protocol.c:187-201 | an END shows all pieces or nothing, and once under its name when it fits, no call fails and all is there |
| DirectRuns.Converse | src/protocol.c:165-224 | a direct or partial upload, raw or compressed, command by command: only the client's whole image is shown, and if the start is well formed, the pieces have legal sizes and make up the image, the END fits and no call fails, exactly once, under the name in the END's bytes or else in the start's |
| Formats.WholeStartBytes | src/protocol.c:168 | which direct starts are well formed, in bytes |
| Formats.PartialRefusalBytes | src/protocol.c:212-219 | each refusal code of a partial start by the field that causes it, in the order the fields are looked at |
| Formats.PipeRefusalBytes | src/protocol.c:227-237 | each refusal code of a PIPE start by the field that causes it |
| Formats.PipeStartAnswers | src/protocol.c:225-240 | the code a PIPE start that is turned away is answered with |
| Formats.PipeBytes | src/protocol.c:241-247 | what a PIPE start announces, and the answer with window and interval 1 and the frame size that results |
| Formats.DirectBytes | src/protocol.c:165-223 | the size, compression, first data and name a direct or partial start announces |
| Formats.RejectionBytes | src/protocol.c:249-272 | the code of a fatal frame by its cause, and the abort behind it |
| Formats.EndAnswers | src/protocol.c:87-97 | the answers to an END in their order, with the result of the refresh |
| Formats.InfoBytes | src/protocol.c:148-164 | the version answer, and what is answered for what the board does not have |
| Formats.ConfigStartBytes | src/protocol.c:131-141 | which configuration starts are accepted, by size and total, and what is then staged or in force |
| Formats.ConfigChunkBytes | src/protocol.c:142-144 | which chunks are accepted, and what a complete configuration leaves in force |
| Gate.FindUnique | src/config_store.c:92-104 | the packet of a type is unique in an accepted configuration, so the first is the one |
| Gate.PolicyBytes | src/config_store.c:92-104 | the policy is the content of the packet of type 39, and none without one; it is on only with a key that is not zero |
| Gate.ReadPolicy | src/config_store.c:104 | the security packet of the configuration in force, or none |
| Gate.Expire | src/main.c:208-209 | an expired session is wiped and ends with its transfer and its configuration upload; otherwise nothing happens |
| Gate.Check | src/main.c:219-232 | a command is admitted exactly without a policy, as a version request, or as a sealed frame that is addressed here, new and genuine; each refusal by its cause; each counter passes once |
| Gate.Serve | src/main.c:219-233 | exactly which commands are executed, that the protocol did what it does for the command the frame carries, and that anything else is only answered, a repeated PIPE frame not even that |
| Gate.OnlyTheSession | src/main.c:208-233 | with a policy nothing but a version request is executed without a session that was there before, no counter is executed twice, and what is not executed changes no configuration |
| Gate.Dispatch | src/main.c:205-234 | the same over the configuration in force, after expiry; an authentication request instead ends any transfer and upload and does and answers what the session layer does |
| GateRuns.OnlyGenuine | src/main.c:205-234 | over any run of turns as `GateRuns.Run` makes them: under a policy every command executed but a version request opens a frame that names the session opened last, is sealed under its key and comes within its lifetime, no two of a session with one counter; a session opens only to a proof of the master key on the challenge handed out last, less than 30 seconds before, with the key both sides derive, and no two on one challenge; what is not executed changes no configuration and leaves only answers and dropped transfers on record |
| GateRuns.Run | src/main.c:205-234 | the main loop from power-on, for any commands, wipes, changes of connection and failures: one turn for each input, each from the state the one before left and dispatched under the policy of the configuration then in force, the last of them where the device stands; and all of that holds of them |
| MainLoop.Invariant | src/main.c:40-185 | every interleaving of the four threads keeps the invariant the results below rest on |
| MainLoop.Isolation | src/main.c:341-361 | a command is served only in the generation last reset for, after its connection came up, and only commands of its connection have touched transfer and session since |
| MainLoop.DispatchIsLive | src/main.c:133-138 | at dispatch the connection is up and the command's generation, main's and the latest are one |
| MainLoop.Ownership | src/main.c:140-185 | one notification of a connection on its way at most, each reported once, a delivery claimed only when reported |
| MainLoop.OnlyItsOwnReport | src/main.c:140-185 | a ticket waited for is completed only by the report of the notification queued under it, and new tickets are fresh |
| MainLoop.NoLostWakeup | src/main.c:335-343 | main never sleeps over a posted command or an announced connection change |
| Progress.NeverDropped | src/main.c:341-391 | no step of any thread loses a command: it leaves the queue only into main's hands, and main lets go of it only served or with its connection gone |
| Progress.Nearer | src/main.c:335-391 | every step of main brings a live command nearer to dispatch, and no other step takes it away |
| Progress.ServedSoon | src/main.c:335-391 | however the threads interleave, a queued command is dispatched within six steps of main, as long as its connection lasts |
| Progress.AwakeForIt | src/main.c:335-343 | and main is not asleep meanwhile |
| Progress.Served | src/main.c:341-391 | from a full queue straight to dispatch |
| Progress.Written | src/main.c:40-60 | a write on a connection that is up goes into an empty queue with its connection, its generation and an event |
| Progress.ResetsWhenDue | src/main.c:343-361 | session and transfer are reset for a new generation, the transfer for a silence, and neither otherwise |
| Progress.BusyExactly | src/main.c:154-159 | a notification is turned away as busy exactly while one of the same connection is on its way |
| Progress.Delivered | src/main.c:150-185 | an answer can be queued, and when the host reports it, the send succeeds under a ticket never used before |

## Left out

- AES itself, `src/crypto_zephyr.c` and `src/storage.c`: an arbitrary block function and a NOR flash stand in for them.
- The inflater in `third_party/uzlib`: an oracle bound only by its polling contract; that its output is the decompression of its input is not claimed.
- Flash.Device.Erase: an erase is atomic, as in the fake flash; a page torn in the middle of an erase is not modelled.
- Security.Sessions.Auth: the random source, the clock and the device identity are parameters; the number of verifications and grants is kept as history beside the fields.
- Replay.AcceptAdds: the replay mask is a sequence of 32 booleans rather than a machine word.
- Container.OdConfigValidate: the set of packet types seen is a set rather than a bit mask.
- Protocol.Protocol.StartRegion: refusal 7, for a device without a region callback, cannot occur here because `src/main.c` always supplies it.
- Protocol.Protocol.Restart: what follows a restart is a new device; the model records the restart and goes on.
- PanelIo.Panel.Region: the number of waveform frames, read from the configuration by `od_config_partial_frames`, is left open.
- Epd.Driver.Write: bytes, not the GPIO edges that shift them out; millisecond delays are dropped except the 30 s limit on polling.
- Epd.Driver.WaitReady: a failing read of the BUSY pin, which the chip's own GPIO port does not report; the code gives up on one at once.
- MainLoop.Invariant: the generation and ticket counters do not wrap, a write callback starts only on a connection whose connected callback has ended, and there is at most one connection at a time.
- MainLoop.Isolation: dispatching a command is one action that touches transfer and session; what it does there is the subject of `Gate`, `Protocol` and `Security`.
- Gate.Dispatch: replies are recorded before `send_response` (`src/main.c:187-201`) encrypts them, and the session reset that follows a change of configuration (`src/main.c:392-393`) is an input of its own in `GateRuns.Run`, which may come at any time.
- Advertising, telemetry, identity, the watchdog, idle disconnects and `od_config_name`.
- Wiping of scratch memory beyond the zeroing of failed payloads, timing, and the strength of the cipher.
