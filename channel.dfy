/** The draft `NetChannel<T>`: three sequence counters, a FIFO queue of
    unreliable and one of reliable messages, the reliable messages already
    packed once, and `send_frame`, which packs one 1400-byte datagram. */
module Channel {
  import opened Sequence

  datatype Option<T> = None | Some(value: T)

  /** Size of the buffer `send_frame` serialises a frame into. */
  const FRAME_SIZE: nat := 1400

  /** Bytes taken by the frame header: one `SequenceNr` for seq and one for
      ack. The draft's header writer stops before writing anything, so this
      size is an assumption of the model. */
  const HEADER_SIZE: nat := 2

  /** Bytes left for messages once the header is written. */
  const MESSAGE_ROOM: nat := FRAME_SIZE - HEADER_SIZE

  /** A queued message. Its serialisation is abstracted to the number of
      bytes `write_to` emits for it. */
  datatype NetMessage<T> = NetMessage(payload: T, wireSize: nat)

  /** One datagram handed to the outbound sender: the reliable and then the
      unreliable messages serialised after the header, and its length. */
  datatype Datagram<T> = Datagram(reliables: seq<NetMessage<T>>, unreliables: seq<NetMessage<T>>, length: nat)

  /** Bytes the messages take when serialised one after the other. */
  function Size<T>(ms: seq<NetMessage<T>>): nat
  {
    if ms == [] then 0 else ms[0].wireSize + Size(ms[1..])
  }

  lemma {:induction false} SizeAppend<T>(xs: seq<NetMessage<T>>, ys: seq<NetMessage<T>>)
    ensures Size(xs + ys) == Size(xs) + Size(ys)
  {
    if xs != [] {
      assert (xs + ys)[1..] == xs[1..] + ys;
      SizeAppend(xs[1..], ys);
    } else {
      assert xs + ys == ys;
    }
  }

  /** How many messages a drain loop writes when it pops `ms` from the front
      into `room` free bytes: it stops at the first message whose size is
      larger than what is left. The result is the longest prefix that fits,
      and the next message, if any, does not fit after it. */
  function Fit<T>(ms: seq<NetMessage<T>>, room: nat): (k: nat)
    ensures k <= |ms|
    ensures Size(ms[..k]) <= room
    ensures k < |ms| ==> Size(ms[..k]) + ms[k].wireSize > room
    decreases |ms|
  {
    if ms == [] || ms[0].wireSize > room then 0
    else
      var k' := Fit(ms[1..], room - ms[0].wireSize);
      assert ms[..k' + 1][1..] == ms[1..][..k'];
      1 + k'
  }

  /** The messages that are written. */
  function Written<T>(ms: seq<NetMessage<T>>, room: nat): seq<NetMessage<T>>
  {
    ms[..Fit(ms, room)]
  }

  /** The message whose write fails: it is popped and then discarded. */
  function Lost<T>(ms: seq<NetMessage<T>>, room: nat): seq<NetMessage<T>>
  {
    var k := Fit(ms, room);
    if k < |ms| then [ms[k]] else []
  }

  /** What stays queued after the drain loop. */
  function Kept<T>(ms: seq<NetMessage<T>>, room: nat): seq<NetMessage<T>>
  {
    ms[|Written(ms, room)| + |Lost(ms, room)|..]
  }

  /** The greedy count is the only one with its two properties: any `j` such
      that the first `j` messages fit and the next one does not is `Fit`. */
  lemma {:induction false} FitUnique<T>(ms: seq<NetMessage<T>>, room: nat, j: nat)
    requires j <= |ms|
    requires Size(ms[..j]) <= room
    requires j < |ms| ==> Size(ms[..j]) + ms[j].wireSize > room
    ensures Fit(ms, room) == j
    decreases |ms|
  {
    if j > 0 {
      assert ms[..j][1..] == ms[1..][..j - 1];
      assert j < |ms| ==> ms[1..][j - 1] == ms[j];
      FitUnique(ms[1..], room - ms[0].wireSize, j - 1);
    }
  }

  /** Draining splits the queue into what is written, at most one lost
      message, and what stays queued, in the original order. */
  lemma DrainPartition<T>(ms: seq<NetMessage<T>>, room: nat)
    ensures Written(ms, room) + Lost(ms, room) + Kept(ms, room) == ms
    ensures |Lost(ms, room)| <= 1
    ensures Size(Written(ms, room)) <= room
  {
  }

  /** A message is lost exactly when the whole queue does not fit; the
      lost message is then the first one that does not fit. */
  lemma NothingLostIffFits<T>(ms: seq<NetMessage<T>>, room: nat)
    ensures Lost(ms, room) == [] <==> Size(ms) <= room
    ensures Lost(ms, room) == [] <==> Written(ms, room) == ms
    ensures Lost(ms, room) == [] ==> Kept(ms, room) == []
  {
    var k := Fit(ms, room);
    if k < |ms| {
      assert ms == ms[..k] + [ms[k]] + ms[k + 1..];
      SizeAppend(ms[..k] + [ms[k]], ms[k + 1..]);
      SizeAppend(ms[..k], [ms[k]]);
      assert Size([ms[k]]) == ms[k].wireSize by {
        assert [ms[k]][1..] == [];
      }
    } else {
      assert ms[..k] == ms;
    }
  }

  /** Writes `reliables` after the first `start` bytes until a write fails,
      as the loop over `reliable_data` does. */
  method WriteAll<T>(reliables: seq<NetMessage<T>>, start: nat) returns (written: seq<NetMessage<T>>, pos: nat)
    requires start <= FRAME_SIZE
    ensures written == Written(reliables, FRAME_SIZE - start)
    ensures pos == start + Size(written) <= FRAME_SIZE
  {
    written, pos := [], start;
    var i := 0;
    while i < |reliables|
      invariant i <= |reliables|
      invariant written == reliables[..i]
      invariant pos == start + Size(written) <= FRAME_SIZE
    {
      var reliable := reliables[i];
      if pos + reliable.wireSize > FRAME_SIZE {
        // out of space
        FitUnique(reliables, FRAME_SIZE - start, i);
        return;
      }
      SizeAppend(written, [reliable]);
      assert [reliable][1..] == [];
      written, pos := written + [reliable], pos + reliable.wireSize;
      i := i + 1;
      assert written == reliables[..i];
    }
    assert reliables[..i] == reliables;
    FitUnique(reliables, FRAME_SIZE - start, i);
  }

  class NetChannel<T> {
    var incomingSeq: SequenceNr
    var outgoingSeq: SequenceNr
    var outgoingSeqAcked: SequenceNr

    var queuedUnreliables: seq<NetMessage<T>>
    var queuedReliables: seq<NetMessage<T>>

    /** The reliable messages packed into a frame once, kept to be packed again. */
    var reliableData: Option<seq<NetMessage<T>>>

    /** The datagrams handed to the outbound sender, oldest first. */
    var sentDatagrams: seq<Datagram<T>>

    /** The packed reliables fit into the room a frame has after its header. */
    ghost predicate Valid()
      reads this
    {
      reliableData.Some? ==> Size(reliableData.value) <= MESSAGE_ROOM
    }

    /** `new_from_channels`: all counters at 0, both queues empty, nothing packed. */
    constructor NewFromChannels()
      ensures Valid()
      ensures incomingSeq == 0 && outgoingSeq == 0 && outgoingSeqAcked == 0
      ensures queuedUnreliables == [] && queuedReliables == []
      ensures reliableData == None
      ensures sentDatagrams == []
    {
      incomingSeq, outgoingSeq, outgoingSeqAcked := 0, 0, 0;
      queuedUnreliables, queuedReliables := [], [];
      reliableData := None;
      sentDatagrams := [];
    }

    /** Queues `msg` behind every unreliable message already queued. */
    method SendUnreliable(msg: NetMessage<T>)
      requires Valid()
      modifies this`queuedUnreliables
      ensures Valid()
      ensures queuedUnreliables == old(queuedUnreliables) + [msg]
    {
      queuedUnreliables := queuedUnreliables + [msg];
    }

    /** Queues `msg` behind every reliable message already queued. */
    method SendReliable(msg: NetMessage<T>)
      requires Valid()
      modifies this`queuedReliables
      ensures Valid()
      ensures queuedReliables == old(queuedReliables) + [msg]
    {
      queuedReliables := queuedReliables + [msg];
    }

    /** The header write: advances the outgoing sequence number by one,
        wrapping at 255, and takes `HEADER_SIZE` bytes of the frame. */
    method WriteFrameHeader() returns (headerLength: nat)
      modifies this`outgoingSeq
      ensures outgoingSeq == Next(old(outgoingSeq))
      ensures headerLength == HEADER_SIZE
    {
      outgoingSeq := Next(outgoingSeq);
      headerLength := HEADER_SIZE;
    }

    /** `send_frame`: packs the header, then the reliables (the ones packed
        before, or as many queued ones as fit), then as many queued
        unreliables as fit, and hands the datagram to the sender. The
        message whose write fails is popped and dropped. The result says
        whether data is still pending; it is always true. */
    method SendFrame() returns (pending: bool)
      requires Valid()
      modifies this
      ensures Valid()
      ensures outgoingSeq == Next(old(outgoingSeq))
      ensures incomingSeq == old(incomingSeq) && outgoingSeqAcked == old(outgoingSeqAcked)
      ensures old(reliableData).Some? ==>
                reliableData == old(reliableData) && queuedReliables == old(queuedReliables)
      ensures old(reliableData).None? ==>
                reliableData == Some(Written(old(queuedReliables), MESSAGE_ROOM)) &&
                queuedReliables == Kept(old(queuedReliables), MESSAGE_ROOM)
      ensures reliableData.Some?
      ensures var packed := reliableData.value;
              var room := MESSAGE_ROOM - Size(packed);
              var unreliables := Written(old(queuedUnreliables), room);
              queuedUnreliables == Kept(old(queuedUnreliables), room) &&
              sentDatagrams == old(sentDatagrams) +
                [Datagram(packed, unreliables, HEADER_SIZE + Size(packed) + Size(unreliables))]
      ensures sentDatagrams[|sentDatagrams| - 1].length <= FRAME_SIZE
      ensures pending == (reliableData.Some? || (queuedReliables != [] && queuedUnreliables != []))
      ensures pending
    {
      var pos := WriteFrameHeader();
      var packed := PackReliables(pos);
      // that's the reliables, now the unreliables that fit
      var unreliables;
      unreliables, pos := PopUnreliables(pos + Size(packed));
      sentDatagrams := sentDatagrams + [Datagram(packed, unreliables, pos)];
      pending := reliableData.Some? || (queuedReliables != [] && queuedUnreliables != []);
    }

    /** The reliable part of `send_frame`, written after the `start` header
        bytes: the reliables packed before are written again, all of them
        since they fit; otherwise queued reliables are popped and written
        until one does not fit, and the ones written become the packed
        reliables. */
    method PackReliables(start: nat) returns (packed: seq<NetMessage<T>>)
      requires Valid() && start == HEADER_SIZE
      modifies this`reliableData, this`queuedReliables
      ensures Valid()
      ensures reliableData == Some(packed)
      ensures old(reliableData).Some? ==>
                packed == old(reliableData).value && queuedReliables == old(queuedReliables)
      ensures old(reliableData).None? ==>
                packed == Written(old(queuedReliables), MESSAGE_ROOM) &&
                queuedReliables == Kept(old(queuedReliables), MESSAGE_ROOM)
    {
      match reliableData {
        case Some(reliables) =>
          var pos;
          packed, pos := WriteAll(reliables, start);
          NothingLostIffFits(reliables, MESSAGE_ROOM);
        case None =>
          var pos;
          packed, pos := PopReliables(start);
          reliableData := Some(packed);
      }
    }

    /** The loop of `send_frame` that pops queued reliables from the front
        and writes them after the first `start` bytes until the queue is
        empty or a write fails; the message whose write fails is dropped. */
    method PopReliables(start: nat) returns (sent: seq<NetMessage<T>>, pos: nat)
      requires start <= FRAME_SIZE
      modifies this`queuedReliables
      ensures sent == Written(old(queuedReliables), FRAME_SIZE - start)
      ensures queuedReliables == Kept(old(queuedReliables), FRAME_SIZE - start)
      ensures pos == start + Size(sent) <= FRAME_SIZE
    {
      ghost var queued := queuedReliables;
      sent, pos := [], start;
      while true
        invariant |sent| <= |queued|
        invariant sent == queued[..|sent|]
        invariant queuedReliables == queued[|sent|..]
        invariant pos == start + Size(sent) <= FRAME_SIZE
        decreases |queuedReliables|
      {
        if queuedReliables == [] {
          assert queued[..|sent|] == queued;
          FitUnique(queued, FRAME_SIZE - start, |sent|);
          break;
        }
        var reliable := queuedReliables[0];
        queuedReliables := queuedReliables[1..];
        if pos + reliable.wireSize > FRAME_SIZE {
          // out of space
          FitUnique(queued, FRAME_SIZE - start, |sent|);
          break;
        }
        SizeAppend(sent, [reliable]);
        assert [reliable][1..] == [];
        sent, pos := sent + [reliable], pos + reliable.wireSize;
        assert sent == queued[..|sent|];
      }
    }

    /** The loop of `send_frame` that pops queued unreliables from the front
        and writes them after the first `start` bytes until the queue is
        empty or a write fails; the message whose write fails is dropped. */
    method PopUnreliables(start: nat) returns (sent: seq<NetMessage<T>>, pos: nat)
      requires start <= FRAME_SIZE
      modifies this`queuedUnreliables
      ensures sent == Written(old(queuedUnreliables), FRAME_SIZE - start)
      ensures queuedUnreliables == Kept(old(queuedUnreliables), FRAME_SIZE - start)
      ensures pos == start + Size(sent) <= FRAME_SIZE
    {
      ghost var queued := queuedUnreliables;
      sent, pos := [], start;
      while true
        invariant |sent| <= |queued|
        invariant sent == queued[..|sent|]
        invariant queuedUnreliables == queued[|sent|..]
        invariant pos == start + Size(sent) <= FRAME_SIZE
        decreases |queuedUnreliables|
      {
        if queuedUnreliables == [] {
          assert queued[..|sent|] == queued;
          FitUnique(queued, FRAME_SIZE - start, |sent|);
          break;
        }
        var msg := queuedUnreliables[0];
        queuedUnreliables := queuedUnreliables[1..];
        if pos + msg.wireSize > FRAME_SIZE {
          FitUnique(queued, FRAME_SIZE - start, |sent|);
          break;
        }
        SizeAppend(sent, [msg]);
        assert [msg][1..] == [];
        sent, pos := sent + [msg], pos + msg.wireSize;
        assert sent == queued[..|sent|];
      }
    }
  }
}
