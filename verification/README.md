# Verification of AP64's unreliable links

AP64 carries requests between a randomizer client on a PC and a Nintendo 64 game, over flash carts
whose USB link, PI bus and console may stop at any access. This project models the parts of it that
must bring byte streams and memory images through such steps intact, and proves what they keep.

`dafny verify dfyconfig.toml` checks the whole project.

## What is modelled

**The EverDrive X7 driver** (`Bytes`, `OneShot`, `UsbFraming`, `EverDriveCart`, `EverDrivePlace`,
`EverDriveDriver`). The receive state machine, its queue and read-ahead, and the block sender, method
for method, over a cart whose every access may succeed, be refused before its store, or fail after
it, and a clock that may say anything. The reference is a one-shot parse of the host's whole stream.
Until a read is abandoned as stuck, what has been delivered and what waits are a prefix of that
parse, but for two read-ahead losses folded into one; from a well-behaved host nothing is lost.

**The game-resident agent** (`L3Stream`, `Agent`). L3 frames put together from whatever the driver
hands over, a tick at a time. The frames returned are those of a one-shot parse of the bytes heard,
however they are cut up, and with the driver underneath, the requests handled are the host's own.

**The file-table transform** (`Yaz0`, `FileTable`, `Repack`, `RepackRoundTrip`, `RepackExample`). The
Yaz0 decoder against byte-by-byte LZ expansion, the image a seed decompresses to, and `repack`, which
lays a patched image back over its compressed seed. The repacked ROM decompresses to the patched
image exactly when the patch wrote nothing outside the header and the files.

**The profile patcher** (`PatchProfile`, `Patcher`, `Immediates`, `PatchWrites`, `Patching`,
`PatchFacts`, `SharedWord`, `Checksum`, `SumsAside`, `LayBack`, `LayBackExample`). What profiles are
accepted, the checks made of a seed, the writes, the header checksum, and the laying back of an image
over the seed it was decompressed from. Every byte changed was read by a check that passed or was one
of those listed; the code's own search for an unexpected change can never find one; and its check of
what the output decompresses to fails exactly when the image holds something outside its files.

**The M64P memory protocol, both ends** (`M64p`, `M64pRoundTrip`, `WatchRing`, `MemProto`,
`MemAgent`, `AtMostOnce`, `Link`, `Multi64`, `Batching`, `WriteMerge`, `PokeEffect`, `Backend`,
`HostWatch`, `RomCache`). The agent's C statics and loops refine a functional protocol; the host's
class runs against a link that loses and delays requests and replies in order while the game runs.
Reads bring back what was asked for; a write is applied at most once exactly when no ROM header is
read between its copies; and a batch of writes leaves memory as those writes in order do, whatever
the link loses, repeats or delays; given up on, it has made some of its requests in order, each whole.
The cache of ROM pages, filled over the same link, is of one image exactly while every answer after a
silence is checked against the header.

**The snapshot a client is answered from** (`QueuedWrites`, `Snapshot`). The cache of windows, the
client's own writes over it, and the queue that becomes one merged batch, across restarts of the
link. Acknowledged writes are conserved: each waits, or has met exactly one fate.

**The mailbox relay** (`Relay`). Packets between a game's two mailboxes and a client's stream, pass
by pass, with the game's frames between.

**The SummerCart64's write-enable** (`Sc64WriteEnable`). The setting held around staging and put
back, over commands that may be refused, or fail without saying whether they took effect.

**The client fix** (`PythonScan`, `ClientMethods`, `ClientFix`). The scanner that tells what each
line of a Python module is, and the two methods added to one of its classes.

**Paint order** (`PaintOrder`). The grouping of painted polygons into runs that share one path.

Where the source changes state in place the model is a class whose methods have the source's steps;
each is proved against a function of the old state, and the lemmas are about those functions.

### Where the code and its documentation disagree

- `crates/ap64-cart/src/backend.rs:868-869` says nothing else goes out between a write's copies. When
  the ROM's header has been read, a read of it does (874-875), and the agent's hold ends with the
  next request it serves (`n64/test-rom/mem_proto.c:698`): `Multi64.SafeIffNoHeader`, and
  `Multi64.TwiceOnTheLink` for a run of the link in which the write is applied twice. What memory
  holds in the end does not suffer, if nothing else writes it: `Backend.Memory.WriteMany`.
- `crates/ap64-cart/src/backend.rs:695` takes a cache without the header's page for one with nothing
  read from the ROM. Other pages may be cached; they then survive a silence unchecked, and pages of
  two images can stand side by side: `RomCache.TwoImages`; exactly when, `OneImageIff`.
- `crates/ap64-connector/src/retroarch.rs:326` and 394 say nothing outlives the link it was read on.
  A read that takes several requests can be cut by a restart between two of them, and the windows of
  the first are then kept as the new console's: `Snapshot.Store.Fetch` says exactly when.
- `crates/ap64-core/src/transform.rs:10-13` says a file decompresses to at most the span its entry
  gives it. The check is of the header's size; a last back-reference may run past it by up to 272
  bytes: `Yaz0.Overruns`, `Yaz0.FileLength`.
- `crates/ap64-core/src/patch.rs:506` says the agent must end within what a cart holds. The check
  adds the agent's length to where the appended region starts, so with `agent.region` before
  `agent.rom` an accepted output can be longer: `PatchFacts.RoomIsNotEnough`; exactly when it is,
  `PatchFacts.FitsIff`.
- `crates/ap64-core/src/crc.rs:76` wants a ROM that reaches the end of what it sums. A profile may
  append before that, and the output then be too short, on which the code panics:
  `PatchFacts.TooShortToSum`.
- `crates/ap64-core/src/patch.rs:555` takes an internal error for a bug. An accepted profile with a
  transform need give its agent no file table entry, and a seed that passes it is then refused with
  one, its output not decompressing to the patched image: `LayBackExample.AgentIsLost`; exactly when
  that happens, `LayBack.LaysBackIff`.
- `crates/ap64-core/src/profile.rs:310-312` promises that a rewritten pair loads its value. Two pairs
  may share an instruction; the later write wins: `SharedWord.FirstIsLost`; exactly when a pair loads
  its value, `PatchFacts.PairInOutput`.
- `n64/agent/sc64.c:490-498` puts back the value saved by the last enable that completed, 0 before
  the first. On a cart whose own setting is not that, an enable that was sent with unknown outcome
  leaves the wrong setting: `Sc64WriteEnable.LostBy`; exactly when none does, `KeptIff`.

### Reading the conditions

- `EverDriveCart.Unit.trusted` is false once a read has been abandoned, or a store made and not seen
  to land had in fact not taken effect. After either, what comes off USB is arbitrary in the model,
  and only the claims that do not name it hold: no unchecked byte is delivered and every loss is
  marked. No claim about the host's stream is made after that.
- `RepackRoundTrip.Placed` is a seed and an image that agree on the table: the seed decompresses,
  its files' vrom spans and stored spans do not overlap, the table is a plain file in place with
  room for either's entries, and each entry of the patched image is plain and in place, or absent as
  the seed has it (`RepackExample.ExamplePlaced` is one). `Enclosed` is what a caller can check of the
  patched image alone.
- `Multi64.Quiet`, `Backend.Apt` and `Backend.Unmixed` say that no request already on its way, no held
  write, and nothing sent before is under the rids a call uses: a 16-bit counter that wraps on a link
  that delays without bound cannot promise it.
- `PokeEffect.Ready` is a game that writes no memory, and requests on their way none of which would
  change it.
- `RomCache` takes images to be told apart by their headers; `noticed` is a console whose reset costs
  the request it falls in its answer, and `reused` counts the requests whose rid something still on
  the link was under.
- `ClientMethods.Added` is a block of lines each of which leaves nothing open and is no statement of
  the module itself, with the two methods among them.


## Model

| member | source | states |
|---|---|---|
| `OneShot.UptoAll` | n64/agent/ed64.c:310-316 | What has been parsed so far and what is still to come together make up the one-shot parse of the stream, for any step function that only ever reads what is there. |
| `OneShot.ReachedGrows` | n64/agent/ed64.c:113-119 | What has been produced stays produced when more of the stream arrives: a call that is stopped takes nothing with it. |
| `UsbFraming.UsbStepGood` | n64/agent/ed64.c:317-432 | Reading one message moves on, looks at nothing past its end, and is decided by its own bytes alone. |
| `UsbFraming.StepTakesMessage` | n64/agent/ed64.c:350-431 | Wherever a well-formed message stands in a stream, it is taken whole and yields its payload if it is an L3 one, nothing if it is not. |
| `UsbFraming.WireParses` | n64/agent/ed64.c:310-316 | The one-shot parse of the messages a host sends is their L3 bytes in order, with no loss. |
| `UsbFraming.FoldedAppend` | n64/agent/ed64.c:514-523 | A trace that differs only by losses folded together goes on differing only so as more is delivered. |
| `UsbFraming.FoldedMerge` | n64/agent/ed64.c:514-523 | A second loss read ahead folds into the first: the two become one and only the bytes between them go. |
| `UsbFraming.FoldedNoLoss` | n64/agent/ed64.c:501-526 | With no loss reported, what was delivered is exactly what was produced. |
| `UsbFraming.FoldedClean` | n64/agent/ed64.c:501-526 | With no loss produced, none is reported and nothing is missing. |
| `EverDriveCart.Cart.ReadStatus` | n64/agent/ed64.c:155-195 | The USB unit as environment: a read seen finished has put the host's next bytes at the window's end; anything else leaves the unit as it was. |
| `EverDriveCart.Cart.AskRead` | n64/agent/ed64.c:241-258 | A read is asked for once its store is made, seen to land or not; refused before that, nothing has changed. |
| `EverDrivePlace.ArrivedKeeps` | n64/agent/ed64.c:113-146 | A read that finishes keeps every invariant of the receive path's place in the stream. |
| `EverDriveDriver.Driver.UsbIdle` | n64/agent/ed64.c:168-211 | Waiting ends idle, put off with everything kept, or with the transfer abandoned; an abandoned read of part of a message is remembered as a cut and the place is forgotten. |
| `EverDriveDriver.Driver.UsbTake` | n64/agent/ed64.c:260-278 | The pulled bytes are loaded whole, at any alignment, or stay to be taken, or their read was abandoned. |
| `EverDriveDriver.Driver.DrainOwed` | n64/agent/ed64.c:324-338 | Bytes of no use leave the stream, at most a window in one read, and nothing is produced. |
| `EverDriveDriver.Driver.ReceiveHeader` | n64/agent/ed64.c:340-381 | Between messages: nothing, a message set aside, a loss, or a header whose message waits for room. |
| `EverDriveDriver.Driver.MakeRoom` | n64/agent/ed64.c:383-389 | Room is made behind the queue without changing what the queue holds. |
| `EverDriveDriver.Driver.GatherPayload` | n64/agent/ed64.c:391-420 | Across any number of interrupted calls the payload, cut at its own size, comes together behind the queue. |
| `EverDriveDriver.Driver.CheckTrailer` | n64/agent/ed64.c:422-431 | A message joins the queue only if its trailer is CMPH; any other is a loss, and no byte of it is delivered. |
| `EverDriveDriver.Driver.UsbReceive` | n64/agent/ed64.c:317-432 | However it is stopped, it produces exactly what its result says: one message behind the queue, one loss, or nothing; and CLEAR means between messages with nothing pulled or owed. |
| `EverDriveDriver.Driver.RxqTake` | n64/agent/ed64.c:434-458 | Queued bytes are handed over in order, a loss exactly where it fell. |
| `EverDriveDriver.Driver.Receive` | n64/agent/ed64.c:460-499 | What is delivered extends what was delivered before by these bytes or one loss; while bytes are queued, or the run has used its time, the cart is not touched. |
| `EverDriveDriver.Driver.ReadAhead` | n64/agent/ed64.c:501-533 | Every message waiting is read into the queue, losses folded, and success means between messages with nothing left unread. |
| `EverDriveDriver.Driver.StartBlock` | n64/agent/ed64.c:557-579 | The cart is asked to transmit the block at most once, however often refused accesses are tried again. |
| `EverDriveDriver.Driver.Send` | n64/agent/ed64.c:581-645 | What the cart is asked to transmit is a block-aligned prefix of the framed message, no block twice, the whole of it when 1 is returned, nothing when the first block was never stored, and nothing unless the receive path is between messages with nothing pulled or owed. |
| `EverDriveDriver.ProducedFollowsHost` | n64/agent/ed64.c:113-119 | Until a read is abandoned, what the receive path has produced is a prefix of the one-shot parse of the host's whole stream, well-formed or not. |
| `EverDriveDriver.DeliveredFollowsHost` | n64/agent/ed64.c:97-102 | What has been delivered and what waits are together what was produced, but for losses folded into one. |
| `EverDriveDriver.NothingLost` | n64/agent/ed64.c:310-316 | From a host that frames its messages as it must, what is delivered is a prefix of its L3 bytes and no loss is ever reported, under any pattern of refused accesses and clock stops, with sends interleaved anywhere. |
| `L3Stream.L3StepGood` | n64/agent/agent.c:199-264 | One step of the L3 parse, a byte of junk or a whole frame, is decided by bytes already there. |
| `L3Stream.FramesParse` | n64/agent/agent.c:240-264 | The one-shot parse of frames sent end to end is those frames. |
| `Agent.JunkKeeps` | n64/agent/agent.c:240-264 | Dropping a byte that begins no plausible frame leaves the buffer the unparsed rest of the stream. |
| `Agent.FrameKeeps` | n64/agent/agent.c:240-264 | A complete frame at the buffer's start is the next one the whole stream holds. |
| `Agent.Agent.RxFrameLen` | n64/agent/agent.c:240-264 | Either a complete frame is at the start, or the stream does not decide one yet and the buffer is not full: a full buffer cannot wedge. |
| `Agent.Agent.StreamFrame` | n64/agent/agent.c:266-310 | The frames returned, over any cutting into receives and ticks, are those the one-shot parse of what was heard finds, in order; the buffer is the rest. |
| `Agent.Agent.Tick` | n64/agent/agent.c:328-415 | At most one frame a tick; a request goes to the handler and its reply out framed, what the host sends meanwhile kept. |
| `Agent.HandledInOrder` | n64/agent/agent.c:328-415 | End to end: whatever the bus, clock and USB unit do short of an abandoned read, the requests handled are the host's, whole, in order, none twice. |
| `Agent.Session` | n64/agent/agent.c:328-415 | From power-on and for any number of ticks and any replies, the requests handled are a prefix of the host's. |
| `Yaz0.CopyBackRepeats` | crates/ap64-core/src/transform.rs:49-54 | Every byte a back-reference writes is the one its distance before it, bytes of the copy itself included. |
| `Yaz0.DecodePack` | crates/ap64-core/src/transform.rs:26-59 | Whatever tokens a stream is made of, the decoder yields their byte-by-byte LZ expansion. |
| `Yaz0.PackedDecodes` | crates/ap64-core/src/transform.rs:14-60 | The decoder undoes any encoder: a Yaz0 file anywhere in a ROM decompresses to its tokens' expansion. |
| `Yaz0.Decompress` | crates/ap64-core/src/transform.rs:14-60 | The loop over groups and tokens computes the decoder, errors included. |
| `Yaz0.FileLength` | crates/ap64-core/src/transform.rs:10-25 | A file that decompresses has at least the size its header says and at most 272 bytes more. |
| `Yaz0.Overruns` | crates/ap64-core/src/transform.rs:49-56 | The bound is reached: a last back-reference that overruns is not cut short, so a file said to hold two bytes gives 274. |
| `Yaz0.FileReadsOnly` | crates/ap64-core/src/transform.rs:26-59 | A file decompresses the same in any ROM that holds the bytes it is made of. |
| `FileTable.EntriesAre` | crates/ap64-core/src/transform.rs:74-95 | The table read is exactly the entries that stand there, up to the first all-zero one after the first. |
| `FileTable.DmaEntries` | crates/ap64-core/src/transform.rs:74-95 | The loop reads that table, refusing one without an end or too long. |
| `FileTable.ImageIs` | crates/ap64-core/src/transform.rs:98-147 | Every byte of a sound seed's image: its rewritten entry, its file's byte decompressed, the header's, or zero. |
| `FileTable.Yaz0Dmadata` | crates/ap64-core/src/transform.rs:98-147 | The in-place decompression computes the image, errors and panics included. |
| `Repack.Repack` | crates/ap64-core/src/transform.rs:186-285 | The laying-out loops compute the repacked ROM, each file left, rewritten where it was, or added past the data. |
| `RepackRoundTrip.RoundTrip` | crates/ap64-core/src/transform.rs:170-185 | A patched image repacked over its seed decompresses to itself if and only if it holds nothing outside its header and files and is as long as they reach: exactly the writes the doc says would be lost silently. |
| `RepackRoundTrip.KeptFiles` | crates/ap64-core/src/transform.rs:173-180 | A file the patch left alone keeps its entry and every byte the seed stores it as. |
| `RepackRoundTrip.LaidRewrite` | crates/ap64-core/src/transform.rs:236-247 | Rewriting a file where it was disturbs nothing laid before it. |
| `RepackRoundTrip.LaidMoved` | crates/ap64-core/src/transform.rs:248-263 | Adding a file past the data disturbs nothing laid before it. |
| `RepackRoundTrip.PointIs` | crates/ap64-core/src/transform.rs:98-147 | Byte by byte, the repacked ROM's image is the patched image inside header and files, and zero elsewhere. |
| `RepackExample.ExamplePlaced` | crates/ap64-core/src/transform.rs:170-185 | There are seeds and images the round trip speaks of: a concrete one. |
| `M64p.CheckLimits` | crates/ap64-cart/src/m64p.rs:195-211 | Which of a request's limits is broken first, if any. |
| `M64p.EncodePeek` | crates/ap64-cart/src/m64p.rs:226-236 | A read within the limits is encoded, and any other refused before it is sent. |
| `M64p.EncodePoke` | crates/ap64-cart/src/m64p.rs:238-250 | A write within the limits is encoded with its data inline, and any other refused before it is sent. |
| `M64p.TakeBlocks` | crates/ap64-cart/src/m64p.rs:340-379 | The loop over a reply's blocks reads them exactly or finds the reply cut short. |
| `M64pRoundTrip.BlocksBack` | crates/ap64-cart/src/m64p.rs:340-379 | Blocks parse back wherever they stand in a reply. |
| `M64pRoundTrip.TrailerBack` | n64/test-rom/mem_proto.c:273-305 | A trailer reads back as the events it took and the count of those lost, or as none where there was no room. |
| `M64pRoundTrip.PeekAnswered` | n64/test-rom/mem_proto.c:389-449 | A PEEKV within the limits, encoded, checked, served and parsed, brings back what memory holds in each region, within the payload cap, whatever the trailer carries. |
| `M64pRoundTrip.PeekRomAnswered` | n64/test-rom/mem_proto.c:507-560 | A PEEKROM brings back what the ROM holds in each region, or that the bus was busy. |
| `M64pRoundTrip.PokeServed` | n64/test-rom/mem_proto.c:451-500 | A POKEV within the limits and in range is taken whole, and memory after it is as if each write was put there in turn. |
| `M64pRoundTrip.PokeAllOrNothing` | n64/test-rom/mem_proto.c:451-500 | Whatever the body of a POKEV: an ERR leaves all of the state as it was; a POKE_ACK names as many writes as stand in the body one after another, each in range, and memory is as those writes in turn leave it. |
| `M64pRoundTrip.PokeHolds` | crates/ap64-cart/src/m64p.rs:238-250 | The writes that stand in an encoded request are exactly those it was made of. |
| `WatchRing.Ring.Push` | n64/test-rom/mem_proto.c:203-222 | A watched event goes behind those waiting; a full queue loses its oldest, counted. |
| `WatchRing.Ring.Drain` | n64/test-rom/mem_proto.c:273-305 | The events a trailer carries are the oldest waiting, as many as fit, and leave the queue; every event that ever came is still handed over, waiting or lost. |
| `WatchRing.SettleOf` | n64/test-rom/mem_proto.c:203-305 | What becomes of events is kept in the order they came, and each is handed over or counted lost, not both. |
| `MemProto.ValidateRegions` | n64/test-rom/mem_proto.c:157-201 | The check loop finds the first thing wrong with a request's regions, in the source's order, or nothing. |
| `MemProto.SlotsFit` | n64/test-rom/mem_proto.c:307-387 | The slots a WATCH sets up are ones the agent can watch. |
| `MemAgent.Agent.Handle` | n64/test-rom/mem_proto.c:675-704 | The C statics and loops do to memory, slots, queue and hold exactly what the protocol says, for any payload. |
| `MemAgent.Agent.HandlePokev` | n64/test-rom/mem_proto.c:451-500 | Nothing is written before everything is checked; then every region is. |
| `MemAgent.Agent.HandlePeekrom` | n64/test-rom/mem_proto.c:507-560 | The blocks are the ROM's bytes, or ERR busy with no partial answer. |
| `MemAgent.Agent.CartRomRead` | n64/agent/cart_rom.c:35-61 | Any bytes of the ROM, of any alignment, come out of whole aligned words read in bursts. |
| `MemAgent.Agent.WatchTick` | n64/test-rom/mem_proto.c:224-265 | A frame's sample queues exactly the changes that were seen before, not to zero, and of a listed value. |
| `AtMostOnce.ServeWrites` | n64/test-rom/mem_proto.c:675-704 | Serving any request changes memory only as an applied write, and the hold only as the write served last. |
| `AtMostOnce.OnceUnlessInterrupted` | n64/test-rom/mem_proto.c:655-670 | Over any loss, the copies of a write are applied at most once if and only if no other request is sent between two of them. |
| `AtMostOnce.AckedApplied` | n64/test-rom/mem_proto.c:655-670 | A write acknowledged has been applied by then, by it or an earlier copy. |
| `Link.RunsServe` | n64/test-rom/mem_proto.c:675-704 | The agent serving the next request on a lossy, late, in-order link keeps every fact a run is judged by. |
| `Link.Channel.Listen` | crates/ap64-cart/src/transport.rs:486-591 | Whatever arrives is no reply, or the agent's reply to a request it served since. |
| `Multi64.ServedHead` | n64/test-rom/mem_proto.c:563-604 | Every reply is under the rid of its request, and a POKE_ACK only to a write applied or held. |
| `Multi64.Host.AwaitResponse` | crates/ap64-cart/src/transport.rs:486-591 | The answer taken is to this rid, and the request goes again at most once, early, and only if it may. |
| `Multi64.Host.PokeOnce` | crates/ap64-cart/src/backend.rs:860-891 | On one link: when it returns Ok the agent applied the write; with no ROM header cached it is applied at most once, whatever is lost or late; an agent that does not recognize copies is sent one. |
| `Multi64.WriteOnce` | crates/ap64-cart/src/backend.rs:850-859 | With no header to read between the copies, the write is applied at most once in every run. |
| `Multi64.SafeIffNoHeader` | crates/ap64-cart/src/backend.rs:868-882 | At most once, whatever the tries and the losses, if and only if no ROM header is cached. |
| `Multi64.TwiceOnTheLink` | crates/ap64-cart/src/backend.rs:868-882 | With a header cached, a run of the link itself in which one write is applied twice: a copy whose answer is late, the header read under its own rid, a second copy. |
| `Multi64.AppliedOnce` | crates/ap64-cart/src/backend.rs:860-891 | The same, of the agent's own memory: between the first and the last state at most one write under the rid was applied. |
| `Multi64.EchoSeen` | crates/ap64-cart/src/transport.rs:594-609 | A read's answer is what memory held at one moment since the call began. |
| `Multi64.Host.PeekV` | crates/ap64-cart/src/transport.rs:594-609 | One read asked once brings back a block for each region, each as long as asked, all of one moment. |
| `Multi64.RomEcho` | n64/test-rom/mem_proto.c:507-560 | Whenever it was served, the answer to a ROM read is the link's ROM at its regions or that the bus was busy, and a refusal from an agent that serves none. |
| `Multi64.Host.PeekRom` | crates/ap64-cart/src/transport.rs:645-668 | One ROM read asked once brings back exactly the ROM's bytes, and is not refused by an agent that serves them, unless something older was under its rid. |
| `Batching.Split` | crates/ap64-cart/src/backend.rs:1144-1163 | Spans are cut into legal regions, refused if any is out of range, with the count of each. |
| `Batching.CutReads` | crates/ap64-cart/src/backend.rs:1144-1163 | A span's regions, read and joined, are the span's bytes. |
| `Batching.Batches` | crates/ap64-cart/src/backend.rs:1242-1259 | Requests hold the chunks in order, each within 32 regions and 7936 bytes, and are cut only where the next chunk would not fit. |
| `Batching.StitchBack` | crates/ap64-cart/src/backend.rs:1261-1276 | Blocks cut and flattened come back as they were cut. |
| `Backend.Memory.ReadMany` | crates/ap64-cart/src/backend.rs:974-1011 | For any in-range spans over memory nothing writes, and a lossy link, the answer is exactly the bytes asked for; the watch's probe never changes it. |
| `WriteMerge.WriteAllIs` | crates/ap64-cart/src/backend.rs:1120-1125 | Memory after a list of writes is the last byte named for each address, and nothing else changed. |
| `WriteMerge.Coalesce` | crates/ap64-cart/src/backend.rs:1125-1140 | Runs in address order, disjoint, not touching, naming exactly the bytes the writes name. |
| `WriteMerge.Fewest` | crates/ap64-cart/src/backend.rs:1120-1124 | No list of writes with the same effect has fewer entries than the runs. |
| `WriteMerge.MergedFits` | crates/ap64-cart/src/backend.rs:1067-1078 | If any batch with the same effect fits one request, the merged runs, cut to size, do. |
| `WriteMerge.SameEffect` | crates/ap64-cart/src/backend.rs:1120-1125 | Writes naming the same bytes leave memory the same. |
| `PokeEffect.LandedWrites` | crates/ap64-cart/src/backend.rs:850-859 | Once a write has landed, memory is what it makes it, however many copies arrived, and nothing still on its way changes that. |
| `PokeEffect.QuietStays` | crates/ap64-cart/src/backend.rs:850-859 | A rid that nothing on the link is under stays so while requests under other rids go by. |
| `PokeEffect.AcrossRebuild` | crates/ap64-cart/src/backend.rs:614-648 | A write given up on as the link is rebuilt has been made whole or not at all, and nothing on the new link changes which. |
| `Backend.Memory.WriteMany` | crates/ap64-cart/src/backend.rs:1056-1099 | If nothing else writes memory, it is left exactly as the caller's writes in their order leave it, in either form, over any losses, delays and copies; one request whenever any equivalent batch would fit one, otherwise the caller's own order; with no header cached no request is applied twice. Given up on, it has made whole requests in their order and the last of them wholly or not at all, and that stands on the link rebuilt after it. |
| `QueuedWrites.MergeBits` | crates/ap64-connector/src/retroarch.rs:413-423 | In a flag byte, a bit the client left alone stays live, and one it changed is as the client has it. |
| `QueuedWrites.OutDone` | crates/ap64-connector/src/retroarch.rs:424-484 | The bytes gathered over live memory are memory after the writes one at a time. |
| `QueuedWrites.Apply` | crates/ap64-connector/src/retroarch.rs:424-484 | Acknowledged on an unchanged link, the one batch leaves memory exactly as the writes one after another would; whatever happens, at most one request goes out, on the link the writes were made against, naming no byte no write changes. |
| `Snapshot.OverlaidWord` | crates/ap64-connector/src/retroarch.rs:396-409 | A window read from the cart and overlaid with the queue answers each word as last written, or as the cart has it. |
| `Snapshot.Store.Read` | crates/ap64-connector/src/retroarch.rs:160-182 | A word answered is the last acknowledged write to it that is not yet on the cart, if there is one. |
| `Snapshot.Store.Write` | crates/ap64-connector/src/retroarch.rs:186-254 | An acknowledged write is at once what the word is answered as; a refused one leaves no trace. |
| `Snapshot.Store.Follow` | crates/ap64-connector/src/retroarch.rs:489-499 | On a restarted link every window and queued write is dropped, each write once, and the windows are wanted again. |
| `Snapshot.Store.Fetch` | crates/ap64-connector/src/retroarch.rs:383-411 | A word read since the last restart is answered as the last write to it that waits, or as the cart has it. A window read before a restart within the same call is taken in all the same: exactly then the snapshot is of two links, and in one request it never is. |
| `Snapshot.Store.PutQueue` | crates/ap64-connector/src/retroarch.rs:340-366 | Every write taken from the queue meets one fate: put, memory then being that of the writes one at a time; dropped with the link; or lost to another error. What is put goes out on the link the writes were made on. |
| `Snapshot.Store.Refresh` | crates/ap64-connector/src/retroarch.rs:330-380 | Acknowledged writes are conserved in order, each waiting or met by one fate; a pass that succeeds with no restart has put every write queued when it began, and one is lost only in a pass that fails. |
| `PaintOrder.MergeRuns` | branding/n64style.py:330-350 | Every polygon is in exactly one run, each run of one color and plane, and of two that overlap the one painted first is in no later run, for any overlap relation. |
| `RomCache.OneImageIff` | crates/ap64-cart/src/backend.rs:685-705 | After a silence, a page kept is of one image with those cached if and only if they are of it already, or the header is among them and the look at it was answered. |
| `RomCache.RunsOfOneImage` | crates/ap64-cart/src/backend.rs:672-702 | In every run of resets, silences and pages read, while each answer is checked, the pages cached are all of one image: the console's, unless a silence since hides which. |
| `RomCache.TwoImages` | crates/ap64-cart/src/backend.rs:691-698 | A run in which an answer is not checked, the header's page not being cached, and the pages then are of no one image. |
| `RomCache.Pages.Answering` | crates/ap64-cart/src/backend.rs:672-702 | An answer after a silence keeps the pages, or drops them all and moves the generation; while every answer is checked, what is kept is the ROM in the console. |
| `RomCache.Pages.ReadBatch` | crates/ap64-cart/src/backend.rs:534-668 | One batch of pages, repeated on silence and in the end on a rebuilt link, where nothing read before is kept. |
| `RomCache.Pages.Fill` | crates/ap64-cart/src/backend.rs:893-923 | Every page asked for is cached, unless the generation moved. |
| `RomCache.Pages.ReadMany` | crates/ap64-cart/src/backend.rs:929-972 | Over the host's own lossy link, the bytes returned are those of one image at the spans asked for, and the header known is that image's, while every answer after a silence was checked or there is one image only, and no rid came round while still in use. |
| `RomCache.Touched` | crates/ap64-cart/src/backend.rs:936-946 | The pages asked for are exactly those some span touches, sorted and each once. |
| `HostWatch.Watch.Push` | crates/ap64-cart/src/watch.rs:121-133 | A value goes behind those waiting; at sixteen the oldest is lost and counted. |
| `HostWatch.Watch.Observe` | crates/ap64-cart/src/watch.rs:141-171 | A reading is kept exactly when it is a change, not to zero, that the filter admits. |
| `HostWatch.Watch.Take` | crates/ap64-cart/src/watch.rs:176-180 | The oldest value waiting is handed over, and the others stay. |
| `HostWatch.TakenInOrder` | crates/ap64-cart/src/watch.rs:121-180 | Of the values kept, those handed over are a subsequence in order; every one is handed over, waiting, at most sixteen of them, or lost and counted. |
| `Relay.Link.Restarted` | crates/ap64-connector/src/relay.rs:124-136 | When the link restarted, buffers and client are given up; otherwise nothing changes. |
| `Relay.Link.NextPacket` | crates/ap64-connector/src/relay.rs:230-250 | The client's next packet is taken only whole and only when there is room. |
| `Relay.Link.Exchange` | crates/ap64-connector/src/relay.rs:195-256 | The game's packet is sent on whole and cleared, and the client's next one put in, in one write, keeping the account of what crossed. |
| `Relay.Link.Pass` | crates/ap64-connector/src/relay.rs:166-256 | A pass makes at most one read of the cart and at most one write. |
| `Relay.OneWay` | crates/ap64-connector/src/relay.rs:230-250 | A stream of bytes is packets in only one way. |
| `Relay.Crossed` | crates/ap64-connector/src/relay.rs:166-267 | In one boot and one connection, interleaved with the game's frames: every packet of the game is forwarded once, whole and in order, but one still there; and every complete packet of the client is put in once and in order, never over one not taken. |
| `Sc64WriteEnable.StepKeeps` | n64/agent/sc64.c:315-398 | A poll or a write, whatever becomes of its commands, keeps the value to put back, and leaves the setting as it was unless a restore is due. |
| `Sc64WriteEnable.KeptIff` | n64/agent/sc64.c:478-490 | In every run the cart is left as it was if and only if the value the driver would put back is the cart's own. |
| `Sc64WriteEnable.EnabledKnows` | n64/agent/sc64.c:490-500 | Once an enable has completed with no restore due, the driver puts back the cart's own value in every run that follows. |
| `Sc64WriteEnable.Driver.Poll` | n64/agent/sc64.c:410-419 | A poll does to setting, saved value and flag what the step says. |
| `Sc64WriteEnable.Driver.Write` | n64/agent/sc64.c:459-511 | A write does what the step says, and succeeds only if it staged its packet with the cart writable. |
| `PythonScan.ScanText` | crates/ap64-connector/src/dk64.rs:141-208 | The loop over lines, brackets, strings and continuations computes what each line is, or that the source cannot be followed. |
| `PythonScan.ScanAppend` | crates/ap64-connector/src/dk64.rs:141-208 | Lines are what they are whatever follows them, and what follows depends only on what they leave open. |
| `PythonScan.NewlineKeeps` | crates/ap64-connector/src/dk64.rs:141-208 | A last line without its newline is the same with one. |
| `PythonScan.RestsBefore` | crates/ap64-connector/src/dk64.rs:141-208 | Before any line that carries no other on, nothing is open: the text can be cut there. |
| `ClientMethods.SomeAdded` | crates/ap64-connector/src/dk64.rs:59-80 | There are blocks of the kind the fix adds. |
| `ClientFix.AddMethods` | crates/ap64-connector/src/dk64.rs:308-332 | The steps of the fix compute the spliced text, refused when the class is not as expected. |
| `ClientFix.LinesOf` | crates/ap64-connector/src/dk64.rs:212-222 | A text put together from lines is cut into those lines again. |
| `ClientFix.FixedScan` | crates/ap64-connector/src/dk64.rs:308-332 | Every line around what is added is to Python what it was. |
| `ClientFix.FixSucceeds` | crates/ap64-connector/src/dk64.rs:308-332 | For every module text the class is found in, and any block of lines that rest and define both methods: the fix succeeds, both methods are in the class, and every other line is there and of the same kind; the final check never fails. |
| `PatchProfile.Parse` | crates/ap64-core/src/profile.rs:353-534 | A profile is accepted exactly when every write of it lands on bytes a check reads, or past the start of what is appended. |
| `Checksum.ComputeSame` | crates/ap64-core/src/crc.rs:77-104 | The checksum depends on the boot code and the summed range alone, so storing it does not change it. |
| `Checksum.Fix` | crates/ap64-core/src/crc.rs:115-123 | The stored checksum is that of the ROM it is stored in, and nothing else changes. |
| `Patcher.LocateOne` | crates/ap64-core/src/patch.rs:171-205 | A find is placed where it is and nowhere else, or not at all. |
| `Patcher.Verify` | crates/ap64-core/src/patch.rs:254-510 | A seed is accepted exactly when every check of the profile holds of it. |
| `PatchWrites.PutByLawful` | crates/ap64-core/src/patch.rs:608-632 | Whatever a write of an accepted profile puts over a seed that passed, below what is appended, lies over bytes a check has read or listed ones; and it is placed. |
| `Patching.Apply` | crates/ap64-core/src/patch.rs:591-761 | Refused exactly when a check fails. Otherwise every byte changed below what is appended is of the checksum, was read by a check, or was one of the listed; only padding gave way; the stored checksum is that of the output; and the search for an unexpected change never finds one. |
| `PatchFacts.WriteLands` | crates/ap64-core/src/patch.rs:591-640 | Each write's bytes are in the output, where no later one is. |
| `PatchFacts.AgentLands` | crates/ap64-core/src/patch.rs:643-657 | The agent is in the output, whole, where its stub was told. |
| `PatchFacts.PairInOutput` | crates/ap64-core/src/patch.rs:700-745 | In the output a pair loads its value if and only if, of the profile's writes, the last at each of its two words puts there the half that value has. |
| `PatchFacts.PairAlone` | crates/ap64-core/src/patch.rs:700-745 | A pair whose words no later write sets loads its value. |
| `SharedWord.FirstIsLost` | crates/ap64-core/src/patch.rs:700-745 | An accepted profile and a seed that passes, patched into a ROM in which the first of two pairs that share a word loads the value of the second. |
| `PatchFacts.FitsIff` | crates/ap64-core/src/patch.rs:476-507 | The output fits a cart if and only if the agent's own end and its entry in the file table do. |
| `PatchFacts.RoomIsEnough` | crates/ap64-core/src/patch.rs:476-507 | A seed that passes the room check comes out no longer than a cart holds, when nothing is appended before the agent and no file table entry is made. |
| `PatchFacts.RoomIsNotEnough` | crates/ap64-core/src/patch.rs:476-507 | An accepted profile and a seed that passes the room check, whose output is longer than a cart holds. |
| `PatchFacts.TooShortToSum` | crates/ap64-core/src/crc.rs:77-88 | An accepted profile and a seed that passes, whose image is too short for its checksum. |
| `SumsAside.ImageAlike` | crates/ap64-core/src/patch.rs:788-797 | Storing a ROM's own checksum changes no other byte of what it decompresses to. |
| `LayBack.LayOver` | crates/ap64-core/src/patch.rs:779-807 | The image is laid over its seed, summed, decompressed again and compared, each step's failure told apart. |
| `LayBack.ApplyTo` | crates/ap64-core/src/patch.rs:591-777 | A seed is declined exactly when it does not decompress or fails a check; only a finished image, with a transform only one laid back, goes out. |
| `LayBack.LaysBackIff` | crates/ap64-core/src/patch.rs:792-802 | For a well stored seed, the patched image goes out if and only if its header and files are all of it; otherwise it is found that the output does not decompress to it, or not at all when its files reach past 64 MiB. |
| `LayBackExample.AgentIsLost` | crates/ap64-core/src/patch.rs:798-802 | An accepted profile and a seed that passes it whose patched image is then found not to be what the output decompresses to: the agent has no entry in the file table. |

## Left out

- PI registers, interrupts, USB electronics, sockets and clocks: each access is an environment step that may succeed or fail, each look at a clock may say anything.
- `ed64_init` on a driver in use, and the version check of the cart: the driver starts on a cart nothing has been read from.
- EverDriveDriver.Driver.ReadAhead: success says the receive path is between messages with nothing read or owed, not that the USB unit was seen with nothing waiting.
- Word-sized PI loads and stores of the window: modelled a byte at a time, from the same word-aligned start.
- Agent.Agent.Tick: the reply is any payload; what it should be is the M64P model's, and that it goes out framed is `EverDriveDriver.Driver.Send`'s.
- Multi64.Host.AwaitResponse: the watch events that ride on a dropped reply, which `keep_watch_trailer` keeps, are not part of the host's state here.
- Rebuilt links: `with_retry`'s deadline, cancellation and health reports; a call of `Multi64` or `Backend` that reaches a reconnect ends there, as failed. What a write given up on has done by then, and leaves on the link rebuilt, is `Backend.Memory.WriteMany`'s; reads carried to a rebuilt link are those of `RomCache`.
- Backend.Memory.ReadMany: exact bytes are claimed only while nothing writes memory (`Still`); each request on its own is of one moment whatever the game does (`Multi64.Host.PeekV`).
- Backend.Memory.WriteMany: the memory claimed is that of a game which writes none of it itself; the game's own writes are not ordered against the requests.
- RepackRoundTrip.RoundTrip: claimed for results shorter than 4 GiB, since a stored start past that wraps in its 32-bit entry.
- Snapshot.Store.Read: the bounded wait for a first fetch, command text and notes.
- Snapshot.Store.Write: one step, where the source takes the lock twice.
- Snapshot.Store.Refresh: the client's pause after which windows are dropped is any moment; a write lost in a pass that fails may have landed.
- QueuedWrites.Apply: the runs of adjacent bytes handed to the cart are a map from address to byte, in one request; the words whose live value is needed are asked for once each but not sorted.
- `Snapshot` windows answer a client as the console was when they were read: the game changes its memory.
- HostWatch.Watch.Push: the counters are unbounded, where the source's are 32 bits.
- Relay.Link.FindBuffers: the pointers are read with the mailboxes' contents, which are not looked at; waits and events are left out, and a client packet whose command is 0 is put in without the game ever seeing it (`Relay.Seen`).
- Sc64WriteEnable.Driver.Write: the staging copy and the USB commands succeed or fail; a command not known to have completed takes effect at once or never.
- ClientFix.FixSucceeds: the module is a sequence of characters and the block any that `Added` admits; the text the program ships is one by reading, not by a proof here. Archives, bytecode and `client_state` are left out.
- PatchProfile.Parse: TOML, labels, the form of names and digests, and the strings places are written in; `at + len` of a copy does not wrap.
- Patching.Apply: digests, boot code and the header's game code are functions of the bytes; with a transform it ends with the patched image, which `LayBack.ApplyTo` carries on to the ROM.
- LayBack.LaysBackIff: claimed for results shorter than 4 GiB, as the round trip is.
- PaintOrder.MergeRuns: `overlaps` is any relation on projected shapes, and color and plane one value; projection, areas and winding are floating-point drawing.
- The other carts' drivers, detection, measurement, installation and everything of the user interface.
