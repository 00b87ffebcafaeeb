/** Message framing: a receiver that copies arbitrary chunks into headers and payloads, and a
    sender that hands a queue of messages to a socket piece by piece.
    (src/net.h, CNetMessage and CNode::EndMessage; src/net.cpp, ReceiveMsgBytes, readHeader,
    readData, SocketSendData) */
module Framing {
  import opened Basics

  const HEADER_SIZE := 24
  const MESSAGE_SIZE_OFFSET := 16
  const CHECKSUM_OFFSET := 20

  /** The two 32-bit words of a header. */
  function LE32(n: nat): (s: seq<Byte>)
    ensures |s| == 4
  {
    Little(n, 4)
  }

  lemma WordRoundTrip(n: nat)
    requires n < WORD
    ensures FromLittle(LE32(n)) == n
  {
    hide Little, FromLittle;
    LittleRoundTrip(n, 4);
    Pow2Byte(3);
    Pow2Byte(2);
    Pow2Byte(1);
    Pow2Byte(0);
  }

  // ---------- the receiver ----------

  /** A message being received: the header bytes so far, and the payload bytes so far. */
  datatype NetMessage = NetMessage(inData: bool, hdr: seq<Byte>, data: seq<Byte>) {
    function Size(): nat
      requires |hdr| == HEADER_SIZE
    {
      FromLittle(hdr[MESSAGE_SIZE_OFFSET..CHECKSUM_OFFSET])
    }

    predicate Ok() {
      if inData then |hdr| == HEADER_SIZE && Size() <= MAX_SIZE && |data| <= Size()
      else |hdr| < HEADER_SIZE && data == []
    }

    predicate Complete()
      requires Ok()
    {
      inData && |data| == Size()
    }
  }

  const NEW_MESSAGE := NetMessage(false, [], [])

  /** The messages of a peer, and whether it has sent a message that is too large. */
  datatype State = State(msgs: seq<NetMessage>, failed: bool) {
    /** All messages but the last are complete. */
    ghost predicate Ok() {
      && (forall k :: 0 <= k < |msgs| - 1 ==> msgs[k].Ok() && msgs[k].Complete())
      && (!failed && |msgs| > 0 ==> msgs[|msgs| - 1].Ok())
    }
  }

  const INITIAL := State([], false)

  ghost predicate NeedsMessage(msgs: seq<NetMessage>)
    requires |msgs| > 0 ==> msgs[|msgs| - 1].Ok()
  {
    |msgs| == 0 || msgs[|msgs| - 1].Complete()
  }

  /** Opens a message if none is under way. */
  ghost function Ready(s: State): State
    requires s.Ok() && !s.failed
  {
    if NeedsMessage(s.msgs) then s.(msgs := s.msgs + [NEW_MESSAGE]) else s
  }

  /** The meaning of one more byte for a message under way. */
  ghost function Absorb(m: NetMessage, b: Byte): (r: (NetMessage, bool))
    requires m.Ok() && !m.Complete()
    ensures !r.1 ==> r.0.Ok()
  {
    if m.inData then (m.(data := m.data + [b]), false)
    else
      var hdr := m.hdr + [b];
      if |hdr| < HEADER_SIZE then (m.(hdr := hdr), false)
      else if m.(hdr := hdr).Size() > MAX_SIZE then (m.(hdr := hdr), true)
      else (m.(hdr := hdr, inData := true), false)
  }

  /** The reference receiver takes one byte at a time. */
  ghost function Feed(s: State, b: Byte): (t: State)
    requires s.Ok()
    ensures t.Ok()
  {
    if s.failed then s
    else
      var r := Ready(s);
      var last := |r.msgs| - 1;
      var (m, failed) := Absorb(r.msgs[last], b);
      State(r.msgs[last := m], failed)
  }

  ghost function FeedAll(s: State, bytes: seq<Byte>): (t: State)
    requires s.Ok()
    ensures t.Ok()
  {
    if |bytes| == 0 then s else Feed(FeedAll(s, bytes[..|bytes| - 1]), bytes[|bytes| - 1])
  }

  /** The state depends only on the concatenated bytes, not on how they were cut. */
  lemma {:induction false} FeedConcat(s: State, a: seq<Byte>, b: seq<Byte>)
    requires s.Ok()
    ensures FeedAll(FeedAll(s, a), b) == FeedAll(s, a + b)
    decreases |b|
  {
    hide Feed;
    if |b| == 0 {
      assert a + b == a;
    } else {
      FeedConcat(s, a, b[..|b| - 1]);
      assert (a + b)[..|a + b| - 1] == a + b[..|b| - 1];
    }
  }

  lemma FeedOne(s: State, b: Byte)
    requires s.Ok()
    ensures FeedAll(s, [b]) == Feed(s, b)
  {
    assert [b][..0] == [];
    assert FeedAll(s, [b][..0]) == s;
  }

  lemma {:induction false} FeedFailed(s: State, a: seq<Byte>)
    requires s.Ok() && s.failed
    ensures FeedAll(s, a) == s
  {
    if |a| > 0 {
      FeedFailed(s, a[..|a| - 1]);
    }
  }

  /** Opening the message first makes no difference to the bytes that follow. */
  lemma {:induction false} ReadyFirst(s: State, a: seq<Byte>)
    requires s.Ok() && !s.failed && |a| > 0
    ensures Ready(s).Ok() && FeedAll(s, a) == FeedAll(Ready(s), a)
  {
    assert !NeedsMessage(Ready(s).msgs);
    if |a| == 1 {
      assert a == [a[0]];
      FeedOne(s, a[0]);
      FeedOne(Ready(s), a[0]);
    } else {
      ReadyFirst(s, a[..|a| - 1]);
    }
  }

  /** A state whose last message is m. */
  ghost predicate Under(s: State, m: NetMessage) {
    && s.Ok() && !s.failed && |s.msgs| > 0 && s.msgs[|s.msgs| - 1] == m && m.Ok() && !m.Complete()
  }

  ghost function WithLast(s: State, m: NetMessage, failed: bool): State
    requires |s.msgs| > 0
  {
    State(s.msgs[|s.msgs| - 1 := m], failed)
  }

  lemma FeedUnder(s: State, m: NetMessage, b: Byte)
    requires Under(s, m)
    ensures var (n, failed) := Absorb(m, b);
            Feed(s, b) == WithLast(s, n, failed)
  {
  }

  /** Header bytes that do not complete the header. */
  lemma {:induction false} FeedHeader(s: State, m: NetMessage, a: seq<Byte>)
    requires Under(s, m) && !m.inData && |m.hdr| + |a| < HEADER_SIZE
    ensures FeedAll(s, a) == WithLast(s, m.(hdr := m.hdr + a), false)
  {
    if |a| == 0 {
      assert m.hdr + a == m.hdr;
      assert s.msgs[|s.msgs| - 1 := m] == s.msgs;
    } else {
      var most := a[..|a| - 1];
      FeedHeader(s, m, most);
      var n := m.(hdr := m.hdr + most);
      FeedUnder(WithLast(s, n, false), n, a[|a| - 1]);
      assert m.hdr + most + [a[|a| - 1]] == m.hdr + a;
    }
  }

  /** Header bytes that complete the header. */
  lemma FeedHeaderEnd(s: State, m: NetMessage, a: seq<Byte>)
    requires Under(s, m) && !m.inData && |m.hdr| + |a| == HEADER_SIZE
    ensures var n := m.(hdr := m.hdr + a);
            FeedAll(s, a) == if n.Size() > MAX_SIZE then WithLast(s, n, true) else WithLast(s, n.(inData := true), false)
  {
    hide Feed, FeedAll, FromLittle;
    var most := a[..|a| - 1];
    FeedLast(s, a);
    FeedHeader(s, m, most);
    var n := m.(hdr := m.hdr + most);
    FeedUnder(WithLast(s, n, false), n, a[|a| - 1]);
    assert m.hdr + most + [a[|a| - 1]] == m.hdr + a;
  }

  lemma FeedLast(s: State, a: seq<Byte>)
    requires s.Ok() && |a| > 0
    ensures FeedAll(s, a) == Feed(FeedAll(s, a[..|a| - 1]), a[|a| - 1])
  {
  }

  /** Payload bytes up to the announced size. */
  lemma {:induction false} FeedData(s: State, m: NetMessage, a: seq<Byte>)
    requires |s.msgs| > 0 && s.Ok() && !s.failed && s.msgs[|s.msgs| - 1] == m && m.Ok()
    requires m.inData && |m.data| + |a| <= m.Size()
    ensures FeedAll(s, a) == WithLast(s, m.(data := m.data + a), false)
  {
    if |a| == 0 {
      assert m.data + a == m.data;
      assert s.msgs[|s.msgs| - 1 := m] == s.msgs;
    } else {
      var most := a[..|a| - 1];
      FeedData(s, m, most);
      var n := m.(data := m.data + most);
      FeedUnder(WithLast(s, n, false), n, a[|a| - 1]);
      assert m.data + most + [a[|a| - 1]] == m.data + a;
    }
  }

  class Receiver {
    var vRecvMsg: seq<NetMessage>

    constructor ()
      ensures vRecvMsg == []
    {
      vRecvMsg := [];
    }

    ghost function Current(): State
      reads this
    {
      State(vRecvMsg, false)
    }

    /** Absorbs a chunk from the network; after a failure the caller closes the connection. */
    method ReceiveMsgBytes(pch: seq<Byte>) returns (ok: bool)
      requires Current().Ok()
      modifies this
      ensures State(vRecvMsg, !ok) == FeedAll(old(Current()), pch)
    {
      hide Feed, FeedAll;
      ghost var start := Current();
      var at := 0;
      FeedNothing(start);
      while at < |pch|
        invariant 0 <= at <= |pch|
        invariant Current().Ok() && FeedAll(start, pch[..at]) == Current()
      {
        var handled := ReceiveSome(pch[at..], start, pch[..at]);
        if handled < 0 {
          FailedEnd(start, pch, at, -handled, State(vRecvMsg, true));
          return false;
        }
        assert pch[..at] + pch[at..][..handled] == pch[..at + handled];
        at := at + handled;
      }
      assert pch[..at] == pch;
      return true;
    }

    /** One turn of the loop: the number of bytes taken, negated if they end in a failure. */
    method ReceiveSome(pch: seq<Byte>, ghost start: State, ghost before: seq<Byte>) returns (handled: int)
      requires |pch| > 0 && start.Ok() && Current().Ok() && FeedAll(start, before) == Current()
      modifies this
      ensures handled != 0 && -|pch| <= handled <= |pch|
      ensures handled > 0 ==> Current().Ok() && FeedAll(start, before + pch[..handled]) == Current()
      ensures handled < 0 ==> FeedAll(start, before + pch[..-handled]) == State(vRecvMsg, true)
    {
      hide Feed, FeedAll;
      ghost var was := Current();
      if |vRecvMsg| == 0 || vRecvMsg[|vRecvMsg| - 1].Complete() {
        vRecvMsg := vRecvMsg + [NEW_MESSAGE];
      }
      assert Current() == Ready(was);
      var inData := vRecvMsg[|vRecvMsg| - 1].inData;
      if !inData {
        handled := ReadHeader(pch);
      } else {
        handled := ReadData(pch);
      }
      ghost var taken := pch[..if handled < 0 then -handled else handled];
      ReadyFirst(was, taken);
      FeedConcat(start, before, taken);
    }

    /** Copies what it can into the header of the message under way. */
    method ReadHeader(pch: seq<Byte>) returns (handled: int)
      requires |pch| > 0 && |vRecvMsg| > 0 && Under(Current(), vRecvMsg[|vRecvMsg| - 1]) && !vRecvMsg[|vRecvMsg| - 1].inData
      modifies this
      ensures handled != 0 && -|pch| <= handled <= |pch|
      ensures handled > 0 ==> FeedAll(old(Current()), pch[..handled]) == Current()
      ensures handled < 0 ==> FeedAll(old(Current()), pch[..-handled]) == State(vRecvMsg, true)
    {
      hide Feed, FeedAll, FromLittle;
      var last := |vRecvMsg| - 1;
      var m := vRecvMsg[last];
      var nCopy := Min(HEADER_SIZE - |m.hdr|, |pch|);
      var hdr := m.hdr + pch[..nCopy];
      vRecvMsg := vRecvMsg[last := m.(hdr := hdr)];
      if |hdr| < HEADER_SIZE {
        FeedHeader(old(Current()), m, pch[..nCopy]);
        return nCopy;
      }
      FeedHeaderEnd(old(Current()), m, pch[..nCopy]);
      if vRecvMsg[last].Size() > MAX_SIZE {
        return -nCopy;
      }
      vRecvMsg := vRecvMsg[last := m.(hdr := hdr, inData := true)];
      return nCopy;
    }

    /** Copies what it can into the payload of the message under way. */
    method ReadData(pch: seq<Byte>) returns (handled: int)
      requires |pch| > 0 && |vRecvMsg| > 0 && Under(Current(), vRecvMsg[|vRecvMsg| - 1]) && vRecvMsg[|vRecvMsg| - 1].inData
      modifies this
      ensures 0 < handled <= |pch| && FeedAll(old(Current()), pch[..handled]) == Current()
    {
      hide Feed, FeedAll, FromLittle;
      var last := |vRecvMsg| - 1;
      var m := vRecvMsg[last];
      var nCopy := Min(m.Size() - |m.data|, |pch|);
      FeedData(Current(), m, pch[..nCopy]);
      vRecvMsg := vRecvMsg[last := m.(data := m.data + pch[..nCopy])];
      return nCopy;
    }
  }

  lemma FeedNothing(s: State)
    requires s.Ok()
    ensures FeedAll(s, []) == s
  {
  }

  lemma Rejoin(pch: seq<Byte>, at: nat, n: nat)
    requires at + n <= |pch|
    ensures pch[..at] + pch[at..][..n] + pch[at + n..] == pch
  {
  }

  lemma FailedEnd(s: State, pch: seq<Byte>, at: nat, n: nat, t: State)
    requires s.Ok() && at + n <= |pch| && t.failed
    requires FeedAll(s, pch[..at] + pch[at..][..n]) == t
    ensures FeedAll(s, pch) == t
  {
    hide Feed, FeedAll, FromLittle, State.Ok;
    var a, b := pch[..at] + pch[at..][..n], pch[at + n..];
    Rejoin(pch, at, n);
    FeedConcat(s, a, b);
    FeedFailed(t, b);
  }
}
