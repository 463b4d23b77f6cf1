/** One session's side of a mux connection: turning writes into frames. */
module MuxWriter {
  import opened Bytes
  import opened Buf
  import opened MultiBuffer
  import opened Addresses
  import opened Frames
  import opened Sessions

  /** A frame as a whole: metadata, the packet's own address, and its data if it carries any. */
  datatype Frame = Frame(meta: FrameMetadata, udp: Option<Destination>, data: Option<seq<Byte>>)

  predicate FrameOk(p: Parser, f: Frame) {
    && MetaOk(f.meta) && OptDestOk(f.udp) && MetaBytes(p, f.meta, f.udp).ok
    && (HasData(f.meta) <==> f.data.Some?)
    && (f.data.Some? ==> |f.data.value| <= SIZE)
  }

  ghost predicate AllOk(p: Parser, fs: seq<Frame>) {
    forall i | 0 <= i < |fs| :: FrameOk(p, fs[i])
  }

  function DataBytes(d: Option<seq<Byte>>): seq<Byte>
    requires d.Some? ==> |d.value| <= SIZE
  {
    if d.None? then [] else PutUint16(|d.value|) + d.value
  }

  function FrameBytes(p: Parser, f: Frame): seq<Byte>
    requires FrameOk(p, f)
  {
    MetaBytes(p, f.meta, f.udp).bytes + DataBytes(f.data)
  }

  function AllBytes(p: Parser, fs: seq<Frame>): seq<Byte>
    requires AllOk(p, fs)
  {
    if fs == [] then [] else FrameBytes(p, fs[0]) + AllBytes(p, fs[1..])
  }

  function Carried(f: Frame): seq<Byte> {
    if f.data.Some? then f.data.value else []
  }

  /** The bytes a list of frames carries. */
  function Payload(fs: seq<Frame>): seq<Byte> {
    if fs == [] then [] else Payload(fs[..|fs| - 1]) + Carried(fs[|fs| - 1])
  }

  lemma {:induction false} AllBytesSnoc(p: Parser, fs: seq<Frame>, f: Frame)
    requires AllOk(p, fs) && FrameOk(p, f)
    ensures AllOk(p, fs + [f]) && AllBytes(p, fs + [f]) == AllBytes(p, fs) + FrameBytes(p, f)
  {
    hide FrameOk, FrameBytes;
    if fs == [] {
      assert fs + [f] == [f] && [f][1..] == [];
      assert AllBytes(p, [f]) == FrameBytes(p, f) + AllBytes(p, []);
    } else {
      assert (fs + [f])[1..] == fs[1..] + [f];
      AllBytesSnoc(p, fs[1..], f);
    }
  }

  lemma PayloadSnoc(fs: seq<Frame>, f: Frame)
    ensures Payload(fs + [f]) == Payload(fs) + Carried(f)
  {
    assert (fs + [f])[..|fs|] == fs;
  }

  /** All frames of one session, in the order its writer makes them: New first, then Keep, End last. */
  ghost predicate Talk(fs: seq<Frame>, id: nat, response: bool) {
    && (forall i | 0 <= i < |fs| :: fs[i].meta.id == id)
    && (forall i | 0 <= i < |fs| :: fs[i].meta.status == if i == 0 && !response then NEW else KEEP)
  }

  lemma TalkSnoc(fs: seq<Frame>, id: nat, response: bool, f: Frame)
    requires Talk(fs, id, response) && f.meta.id == id
    requires f.meta.status == if fs == [] && !response then NEW else KEEP
    ensures Talk(fs + [f], id, response)
  {
  }

  datatype PacketData = PacketData(data: seq<Byte>, udp: Option<Destination>)

  function PacketsBytes(ps: seq<PacketData>): seq<Byte> {
    if ps == [] then [] else ps[0].data + PacketsBytes(ps[1..])
  }

  /** One frame per packet, with its content and its address. */
  ghost predicate Sends(fs: seq<Frame>, ps: seq<PacketData>) {
    |fs| == |ps| && forall i | 0 <= i < |fs| :: fs[i].data == Some(ps[i].data) && fs[i].udp == ps[i].udp
  }

  /** The frames that a call added. */
  ghost function Added(a: seq<Frame>, b: seq<Frame>): seq<Frame>
    requires Extends(a, b)
  {
    b[|a|..]
  }

  lemma SendsNone(a: seq<Frame>, ps: seq<PacketData>)
    ensures Extends(a, a) && Sends(Added(a, a), ps[..0])
  {
  }

  lemma SendsSnoc(a: seq<Frame>, b: seq<Frame>, c: seq<Frame>, ps: seq<PacketData>, n: nat)
    requires n < |ps| && Extends(a, b) && Sends(Added(a, b), ps[..n])
    requires |c| == |b| + 1 && Extends(b, c) && c[|b|].data == Some(ps[n].data) && c[|b|].udp == ps[n].udp
    ensures Extends(a, c) && Sends(Added(a, c), ps[..n + 1])
  {
    assert c[..|a|] == c[..|b|][..|a|];
    assert Added(a, c) == Added(a, b) + [c[|b|]];
    assert ps[..n + 1] == ps[..n] + [ps[n]];
  }

  /** Whether a frame can be written depends only on the addresses of a New one. */
  lemma WritableUnlessStuck(p: Parser, meta: FrameMetadata, udp: Option<Destination>)
    requires MetaOk(meta) && OptDestOk(udp)
    ensures MetaBytes(p, meta, udp).ok <==> meta.status != NEW || TailBytes(p, meta.(option := 0), None).ok
  {
    hide DestBytes, InboundBytes;
  }

  class Writer {
    const p: Parser
    const dest: Option<Destination>
    const id: nat
    const transfer: Transfer
    const globalID: seq<Byte>
    const inbound: Option<Inbound>
    const response: bool
    var followup: bool
    var hasError: bool
    /** What went to the link so far, and how many frames the link will still take. */
    var sent: seq<Byte>
    var room: nat
    ghost var frames: seq<Frame>

    /** NewWriter, or NewResponseWriter when there is no destination to open. */
    constructor (p: Parser, id: nat, dest: Option<Destination>, transfer: Transfer, globalID: seq<Byte>, inbound: Option<Inbound>, room: nat)
      requires id < 65536 && |globalID| == 8 && OptDestOk(dest)
      requires inbound.Some? ==> OptDestOk(inbound.value.source) && OptDestOk(inbound.value.local)
      ensures Valid() && Live() && frames == [] && sent == [] && !hasError
      ensures this.id == id && this.p == p && this.dest == dest && this.transfer == transfer && response == dest.None? && this.room == room
    {
      this.p, this.id, this.dest, this.transfer := p, id, dest, transfer;
      this.globalID, this.inbound, response := globalID, inbound, dest.None?;
      followup, hasError, sent, frames := dest.None?, false, [], [];
      this.room := room;
    }

    ghost predicate Valid()
      reads this
    {
      && id < 65536 && |globalID| == 8 && OptDestOk(dest)
      && (inbound.Some? ==> OptDestOk(inbound.value.source) && OptDestOk(inbound.value.local))
      && response == dest.None?
      && (response ==> followup)
      && AllOk(p, frames) && sent == AllBytes(p, frames)
    }

    /** No write has failed and the session has not been closed. */
    ghost predicate Live()
      reads this
    {
      (followup <==> response || frames != []) && Talk(frames, id, response)
    }

    /** The session's first frame can be written: its addresses are of a known family and not too long. */
    ghost predicate CanOpen()
      requires Valid()
      reads this
    {
      response || TailBytes(p, FrameMetadata(id, NEW, 0, dest, globalID, inbound), None).ok
    }

    /** The link, or the session's addresses, are the only reasons to fail. */
    ghost predicate Stuck()
      requires Valid()
      reads this
    {
      room == 0 || !CanOpen()
    }

    method GetNextFrameMeta() returns (meta: FrameMetadata)
      requires Valid()
      modifies this`followup
      ensures followup
      ensures meta == FrameMetadata(id, if old(followup) then KEEP else NEW, 0, dest, globalID, inbound)
      ensures MetaOk(meta)
    {
      meta := FrameMetadata(id, if followup then KEEP else NEW, 0, dest, globalID, inbound);
      followup := true;
    }

    /** Lays the frame out in a buffer and hands it to the link, which may refuse. */
    method Transmit(meta: FrameMetadata, udp: Option<Destination>, data: Option<seq<Byte>>) returns (ok: bool)
      requires Valid() && MetaOk(meta) && OptDestOk(udp)
      requires (HasData(meta) <==> data.Some?) && (data.Some? ==> |data.value| <= SIZE)
      modifies this`sent, this`room, this`frames
      ensures Valid()
      ensures ok <==> MetaBytes(p, meta, udp).ok && old(room) > 0
      ensures ok ==> frames == old(frames) + [Frame(meta, udp, data)] && room == old(room) - 1
      ensures !ok ==> frames == old(frames) && room == old(room)
    {
      hide MetaBytes, AllBytes, Payload;
      ghost var f := Frame(meta, udp, data);
      var frame := new Buffer.New();
      ok := WriteTo(p, frame, meta, udp);
      if !ok || room == 0 {
        return false;
      }
      room := room - 1;
      var out := frame.Bytes();
      if data.Some? {
        frame.Append(PutUint16(|data.value|));
        out := frame.Bytes() + data.value;
      }
      assert FrameOk(p, f);
      assert out == FrameBytes(p, f);
      AllBytesSnoc(p, frames, f);
      sent := sent + out;
      frames := frames + [f];
    }

    method WriteMetaOnly() returns (ok: bool)
      requires Valid() && Live()
      modifies this`followup, this`sent, this`room, this`frames
      ensures Valid() && (!ok ==> Stuck())
      ensures ok ==> Live() && |frames| == |old(frames)| + 1 && frames[..|old(frames)|] == old(frames) &&
                     frames[|old(frames)|].data.None? && Payload(frames) == Payload(old(frames))
    {
      hide AllBytes, AllOk, Payload, Talk;
      var meta := GetNextFrameMeta();
      ok := Transmit(meta, None, None);
      if !ok {
        WritableUnlessStuck(p, meta, None);
        return;
      }
      TalkSnoc(old(frames), id, response, Frame(meta, None, None));
      PayloadSnoc(old(frames), Frame(meta, None, None));
    }

    method WriteData(data: seq<Byte>, udp: Option<Destination>) returns (ok: bool)
      requires Valid() && Live() && |data| <= SIZE && OptDestOk(udp)
      modifies this`followup, this`sent, this`room, this`frames
      ensures Valid() && (!ok ==> Stuck())
      ensures ok ==> Live() && |frames| == |old(frames)| + 1 && frames[..|old(frames)|] == old(frames) &&
                     frames[|old(frames)|].data == Some(data) && frames[|old(frames)|].udp == udp &&
                     Payload(frames) == Payload(old(frames)) + data
    {
      hide AllBytes, AllOk, Payload, Talk;
      var meta := GetNextFrameMeta();
      meta := meta.(option := OPTION_DATA);
      ok := Transmit(meta, udp, Some(data));
      if !ok {
        WritableUnlessStuck(p, meta, udp);
        return;
      }
      TalkSnoc(old(frames), id, response, Frame(meta, udp, Some(data)));
      PayloadSnoc(old(frames), Frame(meta, udp, Some(data)));
    }

    /** A stream session: the bytes go out in order, in frames of 1 to 8192 bytes. */
    method WriteMultiBuffer(mb: seq<seq<Byte>>) returns (ok: bool)
      requires Valid() && Live() && transfer == Stream && Bounded(mb)
      modifies this`followup, this`sent, this`room, this`frames
      ensures Valid() && (!ok ==> Stuck())
      ensures ok ==> Live() && Extends(old(frames), frames) && Payload(frames) == Payload(old(frames)) + Flatten(mb)
      ensures ok && Flatten(mb) == [] ==> |frames| == |old(frames)| + 1 && frames[|old(frames)|].data.None?
      ensures ok && Flatten(mb) != [] ==> forall i | |old(frames)| <= i < |frames| :: Carried(frames[i]) != []
    {
      hide Flatten, AllBytes, Bounded, Payload, AllOk, Talk;
      if Flatten(mb) == [] {
        ok := WriteMetaOnly();
        return;
      }
      var rest := mb;
      while Flatten(rest) != []
        invariant Valid() && Live() && Bounded(rest)
        invariant Extends(old(frames), frames) && (rest == mb || frames != old(frames))
        invariant Payload(frames) + Flatten(rest) == Payload(old(frames)) + Flatten(mb)
        invariant forall i | |old(frames)| <= i < |frames| :: Carried(frames[i]) != []
        decreases |Flatten(rest)|
      {
        ghost var was, before := rest, frames;
        var left, chunk := SplitSize(rest, SIZE);
        rest := left;
        ok := WriteData(Flatten(chunk), None);
        if !ok {
          return;
        }
        assert Payload(before) + Flatten(chunk) + Flatten(rest) == Payload(before) + Flatten(was);
      }
      ok := true;
    }

    /** A packet session: each packet is one frame, up to the last one that is not empty. */
    method WritePackets(ps: seq<PacketData>) returns (ok: bool)
      requires Valid() && Live() && transfer == Packet
      requires forall i | 0 <= i < |ps| :: |ps[i].data| <= SIZE && OptDestOk(ps[i].udp)
      modifies this`followup, this`sent, this`room, this`frames
      ensures Valid() && (!ok ==> Stuck())
      ensures ok ==> Live() && Extends(old(frames), frames) && Payload(frames) == Payload(old(frames)) + PacketsBytes(ps)
      ensures ok && PacketsBytes(ps) != [] ==>
                var n := |frames| - |old(frames)|;
                0 < n <= |ps| && PacketsBytes(ps[n..]) == [] && Sends(Added(old(frames), frames), ps[..n])
    {
      hide AllBytes, Payload, AllOk, Talk, Sends;
      if PacketsBytes(ps) == [] {
        ok := WriteMetaOnly();
        return;
      }
      var n := 0;
      SendsNone(frames, ps);
      while PacketsBytes(ps[n..]) != []
        invariant 0 <= n <= |ps| && Valid() && Live()
        invariant Extends(old(frames), frames) && |frames| == |old(frames)| + n
        invariant n > 0 || PacketsBytes(ps[n..]) != []
        invariant Payload(frames) + PacketsBytes(ps[n..]) == Payload(old(frames)) + PacketsBytes(ps)
        invariant Sends(Added(old(frames), frames), ps[..n])
        decreases |ps| - n
      {
        ghost var before := frames;
        assert ps[n..][1..] == ps[n + 1..] && ps[n..][0] == ps[n];
        assert PacketsBytes(ps[n..]) == ps[n].data + PacketsBytes(ps[n + 1..]);
        ok := WriteData(ps[n].data, ps[n].udp);
        if !ok {
          return;
        }
        assert Payload(before) + ps[n].data + PacketsBytes(ps[n + 1..]) == Payload(before) + PacketsBytes(ps[n..]);
        SendsSnoc(old(frames), before, frames, ps, n);
        n := n + 1;
      }
      ok := true;
    }

    /** Tells the peer that the session is over. */
    method Close() returns (ok: bool)
      requires Valid()
      modifies this`sent, this`room, this`frames
      ensures Valid() && (ok <==> old(room) > 0)
      ensures ok ==> frames == old(frames) + [EndFrame(id, hasError)]
      ensures !ok ==> frames == old(frames)
    {
      hide AllBytes;
      var meta := FrameMetadata(id, END, if hasError then OPTION_ERROR else 0, None, NO_GLOBAL_ID, None);
      ok := Transmit(meta, None, None);
    }
  }

  function EndFrame(id: nat, hasError: bool): Frame {
    Frame(FrameMetadata(id, END, if hasError then OPTION_ERROR else 0, None, NO_GLOBAL_ID, None), None, None)
  }

  /** The End frames for a list of sessions. */
  function Ends(ids: seq<nat>): seq<Frame> {
    seq(|ids|, i requires 0 <= i < |ids| => EndFrame(ids[i], false))
  }

  lemma EndsSnoc(p: Parser, ids: seq<nat>, id: nat)
    requires AllOk(p, Ends(ids)) && id < 65536
    ensures FrameOk(p, EndFrame(id, false)) && AllOk(p, Ends(ids + [id]))
    ensures AllBytes(p, Ends(ids + [id])) == AllBytes(p, Ends(ids)) + FrameBytes(p, EndFrame(id, false))
  {
    hide MetaBytes, AllBytes, FrameBytes;
    EndFrameLayout(p, id, false);
    assert Ends(ids + [id]) == Ends(ids) + [EndFrame(id, false)];
    AllBytesSnoc(p, Ends(ids), EndFrame(id, false));
  }

  /** An End frame on the wire: length 4, the ID, status 3, and option 2 for an error. */
  lemma EndFrameLayout(p: Parser, id: nat, hasError: bool)
    requires id < 65536
    ensures FrameOk(p, EndFrame(id, hasError))
    ensures FrameBytes(p, EndFrame(id, hasError)) == [0, 4] + PutUint16(id) + [3, if hasError then 2 else 0]
  {
    var f := EndFrame(id, hasError);
    assert TailBytes(p, f.meta, None) == Written(true, []);
    assert Header(f.meta) + [] == Header(f.meta);
    assert Wrap(4) == 4 && PutUint16(4) == [0, 4];
    hide PutUint16;
  }

  /** The frames of a stream session: status 1 with the destination or status 2, and option 1 for data. */
  lemma StreamFrameLayout(p: Parser, id: nat, dest: Option<Destination>, data: Option<seq<Byte>>)
    requires id < 65536 && OptDestOk(dest) && (data.Some? ==> |data.value| <= SIZE)
    requires dest.Some? ==> DestBytes(p, dest.value).ok
    ensures var f := Frame(FrameMetadata(id, if dest.Some? then NEW else KEEP, if data.Some? then OPTION_DATA else 0, dest,
                                         NO_GLOBAL_ID, None), None, data);
            var opening := if dest.Some? then DestBytes(p, dest.value).bytes else [];
            && FrameOk(p, f)
            && FrameBytes(p, f) == PutUint16(Wrap(4 + |opening|)) + PutUint16(id) +
                                   [if dest.Some? then 1 else 2, if data.Some? then 1 else 0] + opening +
                                   if data.Some? then PutUint16(|data.value|) + data.value else []
  {
    hide PutUint16, DestBytes, Wrap;
  }

  ghost predicate Extends(a: seq<Frame>, b: seq<Frame>) {
    |a| <= |b| && b[..|a|] == a
  }
}
