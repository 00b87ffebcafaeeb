/** Sending messages through a socket that takes a part at a time, and what arrives.
    (src/net.h, CNode::BeginMessage and EndMessage; src/net.cpp, SocketSendData) */
module Sending {
  import opened Basics
  import opened Framing

  datatype Message = Message(command: seq<Byte>, payload: seq<Byte>)

  /** The message start bytes and the payload hash of the network. */
  datatype Network = Network(start: seq<Byte>, hash: seq<Byte> -> nat) {
    ghost predicate Ok() { |start| == 4 }
  }

  ghost predicate Fits(m: Message) {
    |m.command| == 12 && |m.payload| <= MAX_SIZE
  }

  function Header(net: Network, m: Message): seq<Byte> {
    net.start + m.command + LE32(|m.payload| % WORD) + LE32(net.hash(m.payload) % WORD)
  }

  function Frame(net: Network, m: Message): seq<Byte> {
    Header(net, m) + m.payload
  }

  /** All frames one after the other. */
  ghost function Stream(net: Network, ms: seq<Message>): seq<Byte> {
    if |ms| == 0 then [] else Stream(net, ms[..|ms| - 1]) + Frame(net, ms[|ms| - 1])
  }

  /** How a message looks once it has arrived. */
  function Arrived(net: Network, m: Message): NetMessage {
    NetMessage(true, Header(net, m), m.payload)
  }

  ghost function AllArrived(net: Network, ms: seq<Message>): seq<NetMessage> {
    seq(|ms|, k requires 0 <= k < |ms| => Arrived(net, ms[k]))
  }

  /** The size word of a header is the size of the payload modulo 2^32. */
  lemma HeaderSize(net: Network, m: Message)
    requires net.Ok() && |m.command| == 12
    ensures |Header(net, m)| == HEADER_SIZE
    ensures FromLittle(Header(net, m)[MESSAGE_SIZE_OFFSET..CHECKSUM_OFFSET]) == |m.payload| % WORD
  {
    var size := LE32(|m.payload| % WORD);
    assert Header(net, m)[MESSAGE_SIZE_OFFSET..CHECKSUM_OFFSET] == size;
    WordRoundTrip(|m.payload| % WORD);
  }

  lemma HeaderShape(net: Network, m: Message)
    requires net.Ok() && Fits(m)
    ensures |Header(net, m)| == HEADER_SIZE
    ensures FromLittle(Header(net, m)[MESSAGE_SIZE_OFFSET..CHECKSUM_OFFSET]) == |m.payload|
    ensures Arrived(net, m).Ok() && Arrived(net, m).Complete()
  {
    HeaderSize(net, m);
    assert |m.payload| % WORD == |m.payload|;
  }

  ghost predicate AllComplete(msgs: seq<NetMessage>) {
    forall k :: 0 <= k < |msgs| ==> msgs[k].Ok() && msgs[k].Complete()
  }

  /** A whole frame adds exactly its message. */
  lemma OneFrame(net: Network, msgs: seq<NetMessage>, m: Message)
    requires net.Ok() && Fits(m) && AllComplete(msgs)
    ensures State(msgs, false).Ok() && FeedAll(State(msgs, false), Frame(net, m)) == State(msgs + [Arrived(net, m)], false)
  {
    hide Feed, FeedAll, Header, FromLittle;
    var s := State(msgs, false);
    var header := Header(net, m);
    HeaderShape(net, m);
    var open := Ready(s);
    assert open == State(msgs + [NEW_MESSAGE], false);
    ReadyFirst(s, header);
    FeedHeaderEnd(open, NEW_MESSAGE, header);
    assert NEW_MESSAGE.hdr + header == header;
    var headed := NetMessage(true, header, []);
    var t := WithLast(open, headed, false);
    assert FeedAll(s, header) == t;
    FeedData(t, headed, m.payload);
    assert headed.data + m.payload == m.payload;
    FeedConcat(s, header, m.payload);
    assert WithLast(t, Arrived(net, m), false).msgs == msgs + [Arrived(net, m)];
  }

  ghost predicate AllFit(ms: seq<Message>) {
    forall k :: 0 <= k < |ms| ==> Fits(ms[k])
  }

  lemma ArrivedComplete(net: Network, ms: seq<Message>)
    requires net.Ok() && AllFit(ms)
    ensures AllComplete(AllArrived(net, ms))
  {
    hide Header, FromLittle;
    forall k | 0 <= k < |ms| ensures Arrived(net, ms[k]).Ok() && Arrived(net, ms[k]).Complete() {
      HeaderShape(net, ms[k]);
    }
  }

  /** The whole stream delivers all messages, in order and unchanged. */
  lemma {:induction false} WholeStream(net: Network, ms: seq<Message>)
    requires net.Ok() && AllFit(ms)
    ensures FeedAll(INITIAL, Stream(net, ms)) == State(AllArrived(net, ms), false)
  {
    hide Feed, Header, Frame, Arrived;
    if |ms| == 0 {
      assert AllArrived(net, ms) == [];
    } else {
      var most := ms[..|ms| - 1];
      WholeStream(net, most);
      ArrivedComplete(net, most);
      OneFrame(net, AllArrived(net, most), ms[|ms| - 1]);
      FeedConcat(INITIAL, Stream(net, most), Frame(net, ms[|ms| - 1]));
      assert AllArrived(net, most) + [Arrived(net, ms[|ms| - 1])] == AllArrived(net, ms);
    }
  }

  /** The complete messages of a receiver. */
  ghost function Completed(s: State): seq<NetMessage>
    requires s.Ok()
  {
    if |s.msgs| > 0 && (s.failed || !s.msgs[|s.msgs| - 1].Complete()) then s.msgs[..|s.msgs| - 1] else s.msgs
  }

  lemma FeedGrows(s: State, b: Byte)
    requires s.Ok()
    ensures Completed(s) <= Completed(Feed(s, b))
  {
  }

  /** Complete messages stay. */
  lemma {:induction false} Grows(s: State, a: seq<Byte>)
    requires s.Ok()
    ensures Completed(s) <= Completed(FeedAll(s, a))
  {
    hide Feed, Completed;
    if |a| > 0 {
      Grows(s, a[..|a| - 1]);
      FeedGrows(FeedAll(s, a[..|a| - 1]), a[|a| - 1]);
    }
  }

  /** Whatever part of the stream has arrived, the receiver has not failed and its complete
      messages are the first of those sent; once all bytes are there, they are all of them. */
  lemma Delivered(net: Network, ms: seq<Message>, bytes: seq<Byte>)
    requires net.Ok() && AllFit(ms) && bytes <= Stream(net, ms)
    ensures !FeedAll(INITIAL, bytes).failed
    ensures Completed(FeedAll(INITIAL, bytes)) <= AllArrived(net, ms)
    ensures bytes == Stream(net, ms) ==> Completed(FeedAll(INITIAL, bytes)) == AllArrived(net, ms)
  {
    hide Feed, FeedAll, AllArrived, Stream;
    var all := Stream(net, ms);
    var rest := all[|bytes|..];
    assert all == bytes + rest;
    WholeStream(net, ms);
    ArrivedComplete(net, ms);
    FeedConcat(INITIAL, bytes, rest);
    var s := FeedAll(INITIAL, bytes);
    if s.failed {
      FeedFailed(s, rest);
    }
    Grows(s, rest);
    assert Completed(State(AllArrived(net, ms), false)) == AllArrived(net, ms);
  }

  // ---------- messages that are too long ----------

  /** A header that announces too much ends the connection, with the messages before it. */
  lemma OversizeFails(net: Network, ms: seq<Message>, k: nat, more: seq<Byte>)
    requires net.Ok() && k < |ms| && AllFit(ms[..k]) && |ms[k].command| == 12 && |ms[k].payload| % WORD > MAX_SIZE
    ensures var s := FeedAll(INITIAL, Stream(net, ms[..k]) + Header(net, ms[k]) + more);
            s.failed && Completed(s) == AllArrived(net, ms[..k])
  {
    hide Feed, FeedAll, Header, Stream, FromLittle, AllArrived;
    var header, most := Header(net, ms[k]), AllArrived(net, ms[..k]);
    HeaderSize(net, ms[k]);
    WholeStream(net, ms[..k]);
    ArrivedComplete(net, ms[..k]);
    var s := State(most, false);
    var open := State(most + [NEW_MESSAGE], false);
    assert open == Ready(s);
    ReadyFirst(s, header);
    FeedHeaderEnd(open, NEW_MESSAGE, header);
    assert NEW_MESSAGE.hdr + header == header;
    var t := WithLast(open, NEW_MESSAGE.(hdr := header), true);
    FeedConcat(INITIAL, Stream(net, ms[..k]), header);
    FeedConcat(INITIAL, Stream(net, ms[..k]) + header, more);
    FeedFailed(t, more);
    assert t.msgs[..|most|] == most;
  }

  lemma CompletedFits(s: State, i: nat)
    requires s.Ok() && i < |Completed(s)|
    ensures |Completed(s)[i].data| <= MAX_SIZE
  {
    hide FromLittle;
  }

  /** The whole stream delivers all messages exactly if each is within the size limit, which
      the sender does not check. */
  lemma DeliveredIff(net: Network, ms: seq<Message>)
    requires net.Ok() && forall k :: 0 <= k < |ms| ==> |ms[k].command| == 12
    ensures var s := FeedAll(INITIAL, Stream(net, ms));
            !s.failed && Completed(s) == AllArrived(net, ms) <==> AllFit(ms)
  {
    hide Feed, FeedAll, Header, Stream, Completed;
    var s := FeedAll(INITIAL, Stream(net, ms));
    if AllFit(ms) {
      Delivered(net, ms, Stream(net, ms));
    } else if Completed(s) == AllArrived(net, ms) {
      var k :| 0 <= k < |ms| && !Fits(ms[k]);
      CompletedFits(s, k);
    }
  }

  // ---------- the sender ----------

  function TotalSize(q: seq<seq<Byte>>): nat {
    if |q| == 0 then 0 else |q[0]| + TotalSize(q[1..])
  }

  lemma {:induction false} TotalSizeAppend(q: seq<seq<Byte>>, x: seq<Byte>)
    ensures TotalSize(q + [x]) == TotalSize(q) + |x|
  {
    if |q| == 0 {
      assert (q + [x])[1..] == [];
      assert TotalSize([]) == 0;
    } else {
      TotalSizeAppend(q[1..], x);
      assert (q + [x])[1..] == q[1..] + [x];
    }
  }

  lemma NextFrame(net: Network, ms: seq<Message>, k: nat)
    requires k < |ms|
    ensures Stream(net, ms[..k + 1]) == Stream(net, ms[..k]) + Frame(net, ms[k])
  {
    assert ms[..k + 1][..k] == ms[..k];
  }

  lemma {:induction false} StreamPrefix(net: Network, ms: seq<Message>, k: nat)
    requires k <= |ms|
    ensures Stream(net, ms[..k]) <= Stream(net, ms)
    decreases |ms| - k
  {
    hide Frame;
    if k == |ms| {
      assert ms[..k] == ms;
    } else {
      NextFrame(net, ms, k);
      StreamPrefix(net, ms, k + 1);
    }
  }

  class Sender {
    const net: Network
    var vSendMsg: seq<seq<Byte>>
    var nSendOffset: nat
    var nSendSize: nat
    ghost var sent: seq<Message>     // every message ever queued
    ghost var wire: seq<Byte>        // every byte the socket has taken

    /** The first it messages of the queue have been sent, and offset bytes of the next one. */
    ghost predicate Sent(it: nat)
      reads this
    {
      && net.Ok() && |vSendMsg| <= |sent| && it <= |vSendMsg|
      && (forall k :: 0 <= k < |vSendMsg| ==> vSendMsg[k] == Frame(net, sent[|sent| - |vSendMsg| + k]))
      && (forall k :: 0 <= k < |sent| ==> |sent[k].command| == 12)
      && (if it == |vSendMsg| then nSendOffset == 0 else nSendOffset < |vSendMsg[it]|)
      && nSendSize == TotalSize(vSendMsg[it..])
      && wire == Stream(net, sent[..|sent| - |vSendMsg| + it]) + (if it == |vSendMsg| then [] else vSendMsg[it][..nSendOffset])
    }

    ghost predicate Valid()
      reads this
    {
      Sent(0)
    }

    constructor (net: Network)
      requires net.Ok()
      ensures Valid() && sent == [] && wire == [] && this.net == net
    {
      this.net := net;
      vSendMsg, nSendOffset, nSendSize, sent, wire := [], 0, 0, [], [];
    }

    /** Hands queued bytes to the socket until it takes no more. */
    method SocketSendData()
      requires Valid()
      modifies `vSendMsg, `nSendOffset, `nSendSize, `wire
      ensures Valid() && old(wire) <= wire
    {
      hide Frame, Stream;
      var it := 0;
      while it < |vSendMsg|
        invariant Sent(it) && it <= |vSendMsg| && vSendMsg == old(vSendMsg) && old(wire) <= wire
        decreases |vSendMsg| - it
      {
        var data := vSendMsg[it];
        var nBytes :| nBytes <= |data| - nSendOffset;
        if nBytes > 0 {
          var whole := Advance(it, nBytes);
          if !whole {
            break;
          }
          it := it + 1;
        } else {
          break;
        }
      }
      assert it == |vSendMsg| ==> nSendOffset == 0 && nSendSize == 0;
      assert vSendMsg[it..][0..] == vSendMsg[it..];
      vSendMsg := vSendMsg[it..];
    }

    /** Books nBytes bytes of message it as sent. */
    method Advance(it: nat, nBytes: int) returns (whole: bool)
      requires Sent(it) && it < |vSendMsg| && 0 < nBytes <= |vSendMsg[it]| - nSendOffset
      modifies `nSendOffset, `nSendSize, `wire
      ensures old(wire) <= wire && Sent(if whole then it + 1 else it)
    {
      hide Frame, Stream;
      var data := vSendMsg[it];
      wire := wire + data[nSendOffset..nSendOffset + nBytes];
      assert data[..nSendOffset] + data[nSendOffset..nSendOffset + nBytes] == data[..nSendOffset + nBytes];
      nSendOffset := nSendOffset + nBytes;
      assert vSendMsg[it..][1..] == vSendMsg[it + 1..];
      NextFrame(net, sent, |sent| - |vSendMsg| + it);
      if nSendOffset == |data| {
        assert data[..nSendOffset] == data;
        nSendOffset := 0;
        nSendSize := nSendSize - |data|;
        if it + 1 < |vSendMsg| {
          FrameNotEmpty(net, sent[|sent| - |vSendMsg| + it + 1]);
          assert vSendMsg[it + 1][..0] == [];
        }
        return true;
      }
      return false;
    }

    /** Begins, fills and ends a message: size and checksum are patched into the header. */
    method PushMessage(command: seq<Byte>, payload: seq<Byte>)
      requires Valid() && |command| == 12
      modifies this
      ensures Valid() && sent == old(sent) + [Message(command, payload)] && old(wire) <= wire
    {
      var m := Message(command, payload);
      var ssSend := net.start + command + LE32(0) + LE32(0) + payload;
      var nSize := (|ssSend| - HEADER_SIZE) % WORD;
      ssSend := Patch(ssSend, MESSAGE_SIZE_OFFSET, LE32(nSize));
      ssSend := Patch(ssSend, CHECKSUM_OFFSET, LE32(net.hash(ssSend[HEADER_SIZE..]) % WORD));
      FrameIsPatched(net, m, ssSend, nSize);
      Enqueue(m, ssSend);
      if |vSendMsg| == 1 {
        SocketSendData();
      }
    }

    method Enqueue(ghost m: Message, frame: seq<Byte>)
      requires Valid() && frame == Frame(net, m) && |m.command| == 12
      modifies `vSendMsg, `nSendSize, `sent
      ensures Valid() && sent == old(sent) + [m]
    {
      hide Frame, Stream;
      TotalSizeAppend(vSendMsg, frame);
      FrameNotEmpty(net, m);
      ghost var k := |sent| - |vSendMsg|;
      assert (sent + [m])[..k] == sent[..k];
      assert vSendMsg[0..] == vSendMsg;
      assert |vSendMsg| == 0 ==> frame[..0] == [];
      vSendMsg := vSendMsg + [frame];
      assert vSendMsg[0..] == vSendMsg;
      nSendSize := nSendSize + |frame|;
      sent := sent + [m];
    }

    /** End to end: a receiver that has got any part of what the socket took holds the first
        messages sent, complete and unchanged. */
    lemma EndToEnd(bytes: seq<Byte>)
      requires Valid() && AllFit(sent) && bytes <= wire
      ensures !FeedAll(INITIAL, bytes).failed
      ensures Completed(FeedAll(INITIAL, bytes)) <= AllArrived(net, sent)
      ensures |vSendMsg| == 0 && bytes == wire ==> Completed(FeedAll(INITIAL, bytes)) == AllArrived(net, sent)
    {
      hide Frame, Stream, Feed, FeedAll, Completed, AllArrived;
      var k := |sent| - |vSendMsg|;
      StreamPrefix(net, sent, k);
      if |vSendMsg| == 0 {
        assert sent[..k] == sent;
        assert wire == Stream(net, sent);
      } else {
        NextFrame(net, sent, k);
        StreamPrefix(net, sent, k + 1);
        assert wire <= Stream(net, sent[..k + 1]);
      }
      Delivered(net, sent, bytes);
    }
  }

  /** The first k chunks one after the other. */
  ghost function Joined(chunks: seq<seq<Byte>>, k: nat): seq<Byte>
    requires k <= |chunks|
  {
    if k == 0 then [] else Joined(chunks, k - 1) + chunks[k - 1]
  }

  lemma {:induction false} JoinedPrefix(chunks: seq<seq<Byte>>, k: nat, n: nat)
    requires k <= n <= |chunks|
    ensures Joined(chunks, k) <= Joined(chunks, n)
    decreases n
  {
    if k < n {
      JoinedPrefix(chunks, k, n - 1);
    }
  }

  /** A receiver that is handed what a sender's socket took, in chunks of any sizes and up to
      any point, accepts every chunk and ends up with the first messages sent; with all of
      them, if the queue is empty and everything has arrived. */
  method Deliver(sender: Sender, chunks: seq<seq<Byte>>) returns (receiver: Receiver, ok: bool)
    requires sender.Valid() && AllFit(sender.sent) && Joined(chunks, |chunks|) <= sender.wire
    ensures fresh(receiver) && ok && receiver.Current().Ok()
    ensures Completed(receiver.Current()) <= AllArrived(sender.net, sender.sent)
    ensures |sender.vSendMsg| == 0 && Joined(chunks, |chunks|) == sender.wire ==>
              Completed(receiver.Current()) == AllArrived(sender.net, sender.sent)
  {
    hide Feed, FeedAll, Completed, AllArrived, Frame, Stream;
    receiver := new Receiver();
    FeedNothing(INITIAL);
    for k := 0 to |chunks|
      invariant fresh(receiver) && receiver.Current().Ok() && receiver.Current() == FeedAll(INITIAL, Joined(chunks, k))
    {
      JoinedPrefix(chunks, k + 1, |chunks|);
      sender.EndToEnd(Joined(chunks, k + 1));
      FeedConcat(INITIAL, Joined(chunks, k), chunks[k]);
      ok := receiver.ReceiveMsgBytes(chunks[k]);
      if !ok {
        return;
      }
    }
    ok := true;
    sender.EndToEnd(Joined(chunks, |chunks|));
  }

  lemma FrameNotEmpty(net: Network, m: Message)
    ensures |Frame(net, m)| > 0
  {
  }

  function Patch(s: seq<Byte>, at: nat, word: seq<Byte>): seq<Byte>
    requires at + |word| <= |s|
  {
    s[..at] + word + s[at + |word|..]
  }

  lemma FrameIsPatched(net: Network, m: Message, patched: seq<Byte>, nSize: nat)
    requires net.Ok() && |m.command| == 12 && nSize == |m.payload| % WORD
    requires var raw := net.start + m.command + LE32(0) + LE32(0) + m.payload;
             var sized := Patch(raw, MESSAGE_SIZE_OFFSET, LE32(nSize));
             patched == Patch(sized, CHECKSUM_OFFSET, LE32(net.hash(sized[HEADER_SIZE..]) % WORD))
    ensures patched == Frame(net, m)
  {
    hide LE32;
    var raw := net.start + m.command + LE32(0) + LE32(0) + m.payload;
    var sized := Patch(raw, MESSAGE_SIZE_OFFSET, LE32(nSize));
    assert sized == net.start + m.command + LE32(nSize) + LE32(0) + m.payload;
    assert sized[HEADER_SIZE..] == m.payload;
  }
}
