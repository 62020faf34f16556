# NetChannel draft: sequence-number comparison and frame packing

A Dafny model of two parts of an early `NetChannel` draft in gamenet-rs, a
channel that frames messages into datagrams for game networking.

- `sequence.dfy` (module `Sequence`) holds the 8-bit sequence numbers. A
  `SequenceNr` is a `u8` (an `int` in 0..255). `Next` is the `u8` increment
  `a + 1`, which wraps from 255 to 0 in the Rust of that time.
  `OverflowAwareCompare` orders two numbers as points on a ring of 256 values.
  It takes `max(a, b) - min(a, b)` and uses the numeric order when that
  difference is below `SEQUENCE_NR_MAX / 2` (127), and the reverse order
  otherwise. The model keeps the code's threshold of 127, so a difference of
  exactly 127 already counts as wrapped. The lemmas prove the laws of the
  unit test for every value, including the wrap from 255 to 0. They also prove
  that swapping the arguments reverses the result, that the result is `Equal`
  exactly for equal values, and how the result reads in terms of steps
  forward around the ring.
- `channel.dfy` (module `Channel`) holds the draft `NetChannel<T>` as a class.
  Its fields are the three counters, the two FIFO queues `queuedUnreliables`
  and `queuedReliables`, and `reliableData`, the reliable messages already
  packed once. The outbound datagram sender is modelled as `sentDatagrams`,
  the list of datagrams handed to it. `SendFrame` packs one 1400-byte frame.
  It writes the header, which advances `outgoingSeq` with wrap-around. Then
  it writes the reliables: it packs `reliableData` again if it is set. If not,
  it pops queued reliables until one does not fit, and the ones written
  become `reliableData`. Last, it pops unreliables until the queue is empty or
  one does not fit. A message whose write fails has already been popped, so it
  is lost. The pure functions `Fit`, `Written`, `Lost` and `Kept` specify one
  such drain loop. The lemmas about them say that the messages written are the
  longest prefix that fits and that at most one message is lost. They also say
  that a message is lost exactly when the whole queue does not fit, and that
  the rest of the queue stays in order.

Messages are abstract. A `NetMessage<T>` carries its payload and the number
of bytes `write_to` would emit for it. A write fails when the bytes left in
the 1400-byte buffer are fewer than that number. A failed write leaves the
buffer position unchanged. A datagram is modelled as the reliables and
unreliables written into it, plus its length.

The draft's header writer increments `outgoing_seq` and then stops at
`unimplemented!()` (src/channel/mod.rs:88). So the draft as written panics in
every `send_frame` before any packing. The model treats the increment as the
whole header write. It assumes the header takes `HEADER_SIZE` = 2 bytes, one
`u8` for seq and one for ack, as in the commented-out `Frame` struct
(src/channel/mod.rs:7-10). It models the packing and pending logic after the
header as written.

Three consequences of the draft show up in the contracts of `SendFrame`:

- After a frame, `reliableData` is always `Some`. So the returned "pending"
  flag, `is_some() || (!reliables.is_empty() && !unreliables.is_empty())`, is
  always true.
- The draft has no acknowledgement handling, so nothing ever resets
  `reliableData` to `None`. From the second frame on, the same packed
  reliables are written again and `queuedReliables` is never drained.
- Every datagram is at most 1400 bytes long: 2 header bytes plus the
  messages written.

## Model

| member | source | states |
|---|---|---|
| `Sequence.Constants` | src/channel/sequence.rs:1-3 | `SEQUENCE_NR_MAX` is 255, `SEQUENCE_NR_MIN` is 0, the ring has 256 values and the threshold `SEQUENCE_NR_MAX / 2` is 127 |
| `Sequence.Next` | src/channel/sequence.rs:21-22 | the `u8` increment adds one below 255 and wraps 255 to 0 |
| `Sequence.NumericOrder` | src/channel/sequence.rs:11 | `a.cmp(&b)`: Less, Equal or Greater exactly when `a < b`, `a == b` or `a > b` |
| `Sequence.Distance` | src/channel/sequence.rs:8 | `max(a, b) - min(a, b)` is the non-negative gap between the two values, in either order |
| `Sequence.OverflowAwareCompare` | src/channel/sequence.rs:5-15 | the result is `Equal` if and only if `a == b` |
| `Sequence.CompareReflexive` | src/channel/sequence.rs:20 | every value compares `Equal` to itself |
| `Sequence.CompareSuccessor` | src/channel/sequence.rs:21-22 | for every `a`, `a` is `Less` than its wrapping successor and the successor is `Greater` than `a` |
| `Sequence.CompareAcrossWrap` | src/channel/sequence.rs:25-28 | 255 is `Less` than 0 and 0 is `Greater` than 255 |
| `Sequence.CompareAntisymmetric` | src/channel/sequence.rs:8-14 | swapping the arguments reverses the result, for all pairs |
| `Sequence.CompareByDistance` | src/channel/sequence.rs:10-14 | a gap below 127 gives the numeric order and a gap of 127 or more the reversed one, so `compare(0, 126)` is Less and `compare(0, 127)` is Greater |
| `Sequence.CompareByForwardSteps` | src/channel/sequence.rs:8-14 | `b` 1 to 126 steps ahead of `a` on the ring compares Less and 130 or more steps ahead compares Greater; at 127 to 129 steps the result is Less exactly when the step from `a` to `b` crosses the wrap |
| `Sequence.CompareNotRotationInvariant` | src/channel/sequence.rs:10 | (0, 127) and (129, 0) are both 127 steps apart going forward, yet the first pair compares Greater and the second Less |
| `Sequence.CompareHalfRing` | src/channel/sequence.rs:5-15 | with threshold 128 the result is still `Equal` if and only if `a == b` |
| `Sequence.CompareHalfRingByForwardSteps` | src/channel/sequence.rs:10 | with threshold 128 the result depends only on the forward steps: 1 to 127 ahead compares Less, 129 or more compares Greater, at every point of the ring |
| `Sequence.CompareHalfRingLaws` | src/channel/sequence.rs:17-29 | with threshold 128 the unit test's laws and antisymmetry still hold for all values |
| `Channel.Fit` | src/channel/mod.rs:112-122 | the count of messages a pop-and-write loop writes is at most the queue length, those messages fit in the room, and the next message, if there is one, does not fit after them |
| `Channel.FitUnique` | src/channel/mod.rs:112-122 | any count with those properties equals `Fit`, so the loop writes exactly the longest prefix that fits before the first failure |
| `Channel.DrainPartition` | src/channel/mod.rs:128-135 | the messages written, then at most one lost message, then the rest still queued, make up the old queue in its original order |
| `Channel.NothingLostIffFits` | src/channel/mod.rs:103-108 | a message is lost if and only if the whole queue does not fit, which is also exactly when not every message is written; when nothing is lost the queue is left empty |
| `Channel.WriteAll` | src/channel/mod.rs:101-108 | writing the packed reliables after a start position writes the prefix `Fit` allows, and the position moves on by their size and stays within 1400 |
| `Channel.NetChannel.NewFromChannels` | src/channel/mod.rs:37-53 | a fresh channel has all three counters at 0, both queues empty, `reliableData == None` and nothing sent |
| `Channel.NetChannel.SendUnreliable` | src/channel/mod.rs:55-57 | appends the message at the back of `queuedUnreliables`; the frame guarantees no other field changes |
| `Channel.NetChannel.SendReliable` | src/channel/mod.rs:59-61 | appends the message at the back of `queuedReliables`; the frame guarantees no other field changes |
| `Channel.NetChannel.WriteFrameHeader` | src/channel/mod.rs:86-89 | `outgoingSeq` advances by one with wrap-around, nothing else changes, and the header takes `HEADER_SIZE` bytes |
| `Channel.NetChannel.PackReliables` | src/channel/mod.rs:100-125 | with `reliableData` set, all of it is packed again and the queue is untouched; otherwise the written prefix of the queue becomes `reliableData` and the queue loses that prefix and the message that failed |
| `Channel.NetChannel.PopReliables` | src/channel/mod.rs:110-124 | the loop pops and writes `Written(queue)`, drops `Lost(queue)`, leaves `Kept(queue)` queued and advances the position by the size written |
| `Channel.NetChannel.PopUnreliables` | src/channel/mod.rs:127-135 | the same for the unreliable queue, with the room left after the reliables |
| `Channel.NetChannel.SendFrame` | src/channel/mod.rs:92-147 | advances `outgoingSeq` with wrap-around, packs the reliables as `PackReliables` states, drains the unreliables into the remaining room, sends one datagram of at most 1400 bytes holding exactly those messages, leaves the other counters alone and returns a pending flag that equals the source's expression and is always true |

## Left out

- The `Receiver` and `Sender` plumbing (src/channel/mod.rs:17-18, 143) is message passing to another task. The sender is modelled only as the list `sentDatagrams` of datagrams handed to it.
- `recv` (src/channel/mod.rs:63-84) is a `try_recv` drain loop over the receiver. Its only data path is `unimplemented!()`, and the rest is error plumbing (`IoFailed`, `TaskDied`) over a channel this model does not have.
- `NetMessage::write_to` and the `BufWriter`/`tell` internals (src/channel/mod.rs:12-14, 96, 137) are reduced to a byte size per message. A write is all or nothing. A `write_to` that issues several writes and fails part-way would leave partial bytes, and the model does not capture that.
- The datagram's bytes are not modelled. A datagram is the sequence of messages written into it plus its length.
- `Channel.NetChannel.WriteFrameHeader` models only the counter increment and an assumed 2-byte header. The draft's body ends in `unimplemented!()` (src/channel/mod.rs:88), so the real function never returns. The `.unwrap()` of its result (src/channel/mod.rs:98) cannot fail in the model.
- The commented-out `Frame` and `inflight_frames` (src/channel/mod.rs:7-10, 27, 50) are dead code.
- Acknowledgement processing, inflight retirement, latency and drop accounting, and a (seq, ack) header codec do not exist in this draft, so they are not modelled.
- Nothing in the draft calls the sequence comparator. The channel's counters only use the wrapping increment `Next`.

## Findings

| source | as written | input that shows it | evidently intended | confidence | as-written member | corrected member |
|---|---|---|---|---|---|---|
| src/channel/sequence.rs:10 | the wrap threshold is `SEQUENCE_NR_MAX / 2`, which is 127, so a gap of exactly 127 already counts as wrapped | (0, 127) and (129, 0) are both 127 steps forward on the ring, but the first pair compares Greater and the second Less | the half-ring threshold 128, under which the result depends only on the forward steps between the two values | medium (not executed) | `Sequence.CompareNotRotationInvariant` | `Sequence.CompareHalfRing` |
