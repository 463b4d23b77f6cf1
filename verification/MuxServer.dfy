/** The receiving end of a mux connection: frames in, bytes to the right session. */
module MuxServer {
  import opened Bytes
  import opened Buf
  import opened Addresses
  import opened Frames
  import opened Sessions
  import opened MuxReader
  import opened MuxWriter

  /** The session table, the pipes opened so far, and the sessions the peer was told to end. */
  datatype Server = Server(table: Table, outputs: seq<seq<Byte>>, replies: seq<nat>)

  ghost predicate ServerOk(s: Server) {
    && Valid(s.table)
    && forall id | id in s.table.sessions ::
         s.table.sessions[id].output.Some? && s.table.sessions[id].output.value < |s.outputs|
  }

  /** Whether the frame's data is read as one packet. */
  predicate AsPacket(t: Table, meta: FrameMetadata) {
    if meta.status == NEW then meta.target.Some? && meta.target.value.network == UDP
    else meta.status == KEEP && meta.id in t.sessions && t.sessions[meta.id].transfer == Packet
  }

  /** The frame's data, and the stream behind the frame. */
  function DataAfter(meta: FrameMetadata, packet: bool, s: seq<Byte>): Decoded {
    if !HasData(meta) then Decoded([], s, true)
    else if packet then OnePacket(s)
    else OneChunk(s)
  }

  function Opened(s: Server, meta: FrameMetadata): Session {
    Session(meta.id, if meta.target.Some? && meta.target.value.network == UDP then Packet else Stream, Some(|s.outputs|))
  }

  function Closing(t: Table, id: nat, closed: bool): Table {
    if closed then Apply(t, Op.Remove(id)) else t
  }

  /** What a handled frame does, given what its session's pipe accepted and whether it then broke. */
  function FrameAfter(s: Server, meta: FrameMetadata, written: seq<Byte>, closed: bool): Server
    requires ServerOk(s)
  {
    if meta.status == NEW then
      var t := Apply(s.table, Op.Add(Opened(s, meta)));
      Server(Closing(t, meta.id, closed), s.outputs + [written], s.replies)
    else if meta.status == KEEP && HasData(meta) then
      if meta.id in s.table.sessions then
        var k := s.table.sessions[meta.id].output.value;
        Server(Closing(s.table, meta.id, closed), s.outputs[k := s.outputs[k] + written], s.replies)
      else s.(replies := s.replies + [meta.id])
    else if meta.status == END then s.(table := Apply(s.table, Op.Remove(meta.id)))
    else s
  }

  lemma NewServerOk(s: Server, meta: FrameMetadata, written: seq<Byte>, closed: bool)
    requires ServerOk(s) && meta.status == NEW
    ensures ServerOk(FrameAfter(s, meta, written, closed)) && (s.table.closed ==> s.table.sessions == map[])
  {
    hide Wrap;
  }

  lemma OneFrame(p: Parser, f: Frame)
    requires FrameOk(p, f)
    ensures AllOk(p, [f]) && AllBytes(p, [f]) == FrameBytes(p, f)
  {
    AllBytesSnoc(p, [], f);
    assert [] + [f] == [f];
  }

  /** FrameMetadata.Unmarshal; `eof` when the stream had ended. */
  method Unmarshal(p: Parser, reader: BufferedReader, reverse: bool) returns (r: Option<FrameMetadata>, eof: bool)
    requires reader.Valid()
    modifies reader
    ensures reader.Valid()
    ensures r.Some? ==> ParseMeta(p, old(reader.Pending()), reverse) == ReadOk(r.value, reader.Pending())
    ensures r.None? ==> ParseMeta(p, old(reader.Pending()), reverse) == ReadError
    ensures r.None? ==> (eof <==> old(reader.Pending()) == [])
  {
    hide ParseBody;
    ghost var s := reader.Pending();
    var two, short := reader.ReadFull(2);
    if two.None? {
      return None, !short;
    }
    eof := false;
    var metaLen := Uint16(two.value);
    if metaLen > 512 {
      return None, false;
    }
    var body, _ := reader.ReadFull(metaLen);
    if body.None? {
      return None, false;
    }
    assert body.value == s[2..2 + metaLen] && reader.Pending() == s[2 + metaLen..];
    var b := new Buffer.New();
    b.Append(body.value);
    r := UnmarshalFromBuffer(p, b, reverse);
  }

  datatype Handled = Done | Failed | Xudp

  class ServerWorker {
    const p: Parser
    const reverse: bool
    const allowed: Option<Network>
    const reader: BufferedReader
    const manager: SessionManager
    var outputs: seq<seq<Byte>>
    /** What the worker itself has handed to the link: an End frame for each of the replies. */
    var link: seq<Byte>
    ghost var replies: seq<nat>

    constructor (p: Parser, reverse: bool, allowed: Option<Network>, reader: BufferedReader)
      requires reader.Valid()
      ensures Ok() && State() == Server(NEW_TABLE, [], [])
      ensures this.p == p && this.reverse == reverse && this.reader == reader && fresh(manager)
    {
      this.p, this.reverse, this.allowed, this.reader := p, reverse, allowed, reader;
      outputs, link, replies := [], [], [];
      manager := new SessionManager();
    }

    ghost function State(): Server
      reads this, manager
    {
      Server(manager.State(), outputs, replies)
    }

    ghost predicate Ok()
      reads this, manager, reader
    {
      reader.Valid() && ServerOk(State()) && Notified()
    }

    ghost predicate Notified()
      reads this
    {
      AllOk(p, Ends(replies)) && link == AllBytes(p, Ends(replies))
    }

    /** Tells the peer to close a session that is not there. */
    method Notify(id: nat)
      requires id < 65536 && Notified()
      modifies this`link, this`replies
      ensures Notified() && replies == old(replies) + [id]
      ensures link == old(link) + ([0, 4] + PutUint16(id) + [3, 0])
    {
      hide AllBytes, AllOk, FrameOk, FrameBytes;
      EndFrameLayout(p, id, false);
      var closingWriter := new Writer(p, id, None, Stream, NO_GLOBAL_ID, None, 1);
      var _ := closingWriter.Close();
      EndsSnoc(p, replies, id);
      OneFrame(p, EndFrame(id, false));
      assert closingWriter.frames == [EndFrame(id, false)];
      link := link + closingWriter.sent;
      replies := replies + [id];
    }

    /** What other goroutines do between frames: sessions end from their far side, the connection may be shut. */
    method Others(gone: set<nat>, shut: bool)
      requires Ok()
      modifies manager
      ensures Ok() && State() == old(State()).(table := Lose(old(manager.State()), gone, shut))
    {
      var left := gone;
      while left != {}
        invariant left <= gone && Ok()
        invariant State() == old(State()).(table := Lose(old(manager.State()), gone - left, false))
        decreases left
      {
        var id :| id in left;
        manager.Remove(id);
        left := left - {id};
        assert gone - left == gone - (left + {id}) + {id};
        LoseMore(old(manager.State()), gone - (left + {id}), id);
      }
      assert gone - left == gone;
      if shut {
        manager.Close();
      }
    }

    /** Reads a frame's data into a session's pipe; without data there is nothing to do. */
    method Deliver(meta: FrameMetadata, packet: bool, limit: Option<nat>) returns (written: seq<Byte>, closed: bool, ok: bool)
      requires reader.Valid()
      modifies reader
      ensures reader.Valid()
      ensures var d := DataAfter(meta, packet, old(reader.Pending()));
              reader.Pending() == d.rest && ok == d.ok && written <= d.data && (!closed ==> written == d.data)
      ensures closed ==> limit.Some? && HasData(meta)
    {
      hide OneChunk, OnePacket;
      if meta.option % 2 == 0 {
        return [], false, true;
      }
      if packet {
        written, closed, ok := CopyPacket(reader, limit);
      } else {
        written, closed, ok := CopyStream(reader, limit);
      }
    }

    /** Reads a frame's data and drops it. */
    method Discard(meta: FrameMetadata) returns (ok: bool)
      requires reader.Valid()
      modifies reader
      ensures reader.Valid()
      ensures var d := DataAfter(meta, false, old(reader.Pending())); reader.Pending() == d.rest && ok == d.ok
    {
      hide OneChunk;
      if meta.option % 2 == 0 {
        return true;
      }
      var _, _, read := CopyStream(reader, None);
      ok := read;
    }

    method HandleStatusNew(meta: FrameMetadata, dispatched: bool, limit: Option<nat>) returns (r: Handled, written: seq<Byte>, closed: bool)
      requires Ok() && meta.status == NEW && meta.target.Some?
      modifies this, reader, manager
      ensures Ok() && (closed ==> limit.Some? && HasData(meta))
      ensures var d := DataAfter(meta, AsPacket(old(manager.State()), meta), old(reader.Pending()));
              (r.Done? <==> d.ok && Admits(allowed, old(State()), meta, dispatched)) &&
              (!r.Done? && d.ok ==> State() == old(State())) &&
              (r.Done? ==>
                && reader.Pending() == d.rest
                && written <= d.data && (!closed ==> written == d.data)
                && State() == FrameAfter(old(State()), meta, written, closed))
    {
      hide DataAfter, ServerOk;
      written, closed := [], false;
      if allowed.Some? && meta.target.value.network != allowed.value {
        return Handled.Failed, [], false;
      }
      if meta.globalID != NO_GLOBAL_ID {
        return Xudp, [], false;
      }
      if !dispatched {
        var _ := Discard(meta);
        return Handled.Failed, [], false;
      }
      ghost var before := State();
      var transfer := if meta.target.value.network == UDP then Packet else Stream;
      var s := Session(meta.id, transfer, Some(|outputs|));
      assert s == Opened(before, meta);
      var added := manager.Add(s);
      if !added {
        return Handled.Failed, [], false;
      }
      var ok;
      written, closed, ok := Deliver(meta, transfer == Packet, limit);
      outputs := outputs + [written];
      if closed {
        manager.Remove(meta.id);
      }
      NewServerOk(before, meta, written, closed);
      r := if ok then Handled.Done else Handled.Failed;
    }

    method HandleStatusKeep(meta: FrameMetadata, limit: Option<nat>) returns (r: Handled, written: seq<Byte>, closed: bool)
      requires Ok() && meta.status == KEEP && meta.id < 65536
      modifies this, reader, manager
      ensures Ok() && (closed ==> limit.Some? && HasData(meta) && meta.id in old(manager.sessions))
      ensures HasData(meta) && meta.id !in old(manager.sessions) ==> link == old(link) + ([0, 4] + PutUint16(meta.id) + [3, 0])
      ensures var d := DataAfter(meta, AsPacket(old(manager.State()), meta), old(reader.Pending()));
              (r.Done? <==> d.ok) && !r.Xudp? &&
              (r.Done? ==>
                && reader.Pending() == d.rest
                && written <= d.data && (!closed && meta.id in old(manager.sessions) ==> written == d.data)
                && State() == FrameAfter(old(State()), meta, written, closed))
    {
      written, closed := [], false;
      if meta.option % 2 == 0 {
        return Handled.Done, [], false;
      }
      hide DataAfter;
      var s := manager.Get(meta.id);
      if s.None? {
        Notify(meta.id);
        var read := Discard(meta);
        return if read then Handled.Done else Handled.Failed, [], false;
      }
      var k := s.value.output.value;
      var ok;
      written, closed, ok := Deliver(meta, s.value.transfer == Packet, limit);
      outputs := outputs[k := outputs[k] + written];
      if closed {
        manager.Remove(meta.id);
      }
      r := if ok then Handled.Done else Handled.Failed;
    }

    method HandleStatusEnd(meta: FrameMetadata) returns (r: Handled)
      requires Ok() && meta.status == END
      modifies this, reader, manager
      ensures Ok()
      ensures var d := DataAfter(meta, false, old(reader.Pending()));
              (r.Done? <==> d.ok) && !r.Xudp? &&
              (r.Done? ==> reader.Pending() == d.rest && State() == FrameAfter(old(State()), meta, [], false))
    {
      hide DataAfter;
      var s := manager.Get(meta.id);
      if s.Some? {
        manager.Remove(meta.id);
      }
      assert manager.State() == Apply(old(manager.State()), Op.Remove(meta.id));
      var read := Discard(meta);
      r := if read then Handled.Done else Handled.Failed;
    }

    /**
     * One frame, from any position in any stream. `dispatched` says whether a new session would be taken,
     * `limit` after how many writes the session's pipe breaks. Unless the connection breaks, exactly the frame
     * is consumed: its metadata, and its data if it announces any.
     */
    method HandleFrame(dispatched: bool, limit: Option<nat>) returns (r: Handled, ghost written: seq<Byte>, ghost closed: bool, eof: bool)
      requires Ok()
      modifies this, reader, manager
      ensures Ok() && (closed ==> limit.Some?)
      ensures r.Done? <==> Accepts(p, reverse, allowed, old(State()), old(reader.Pending()), dispatched)
      ensures r.Done? ==> Consumed(p, reverse, old(State()), old(reader.Pending()), written, closed, State(), reader.Pending())
      ensures !r.Done? && Intact(p, reverse, old(State()), old(reader.Pending())) ==> State() == old(State())
      ensures !r.Done? ==> (eof <==> old(reader.Pending()) == [])
    {
      hide DataAfter, ParseMeta;
      ghost var s := reader.Pending();
      var meta, ended := Unmarshal(p, reader, reverse);
      eof, written, closed := ended, [], false;
      if meta.None? {
        return Handled.Failed, [], false, eof;
      }
      eof := false;
      NothingRead(p, reverse);
      NewHasTarget(p, s, reverse);
      var m := meta.value;
      if m.status == KEEPALIVE {
        var read := Discard(m);
        r := if read then Handled.Done else Handled.Failed;
      } else if m.status == END {
        r := HandleStatusEnd(m);
      } else if m.status == NEW {
        r, written, closed := HandleStatusNew(m, dispatched, limit);
      } else if m.status == KEEP {
        r, written, closed := HandleStatusKeep(m, limit);
      } else {
        r := Handled.Failed;
      }
    }
  }

  function Lose(t: Table, gone: set<nat>, shut: bool): Table {
    if t.closed then t
    else if shut then Apply(t, Op.Close)
    else t.(sessions := t.sessions - gone)
  }

  lemma LoseMore(t: Table, gone: set<nat>, id: nat)
    ensures Apply(Lose(t, gone, false), Op.Remove(id)) == Lose(t, gone + {id}, false)
  {
    assert t.sessions - gone - {id} == t.sessions - (gone + {id});
  }

  lemma NothingRead(p: Parser, reverse: bool)
    ensures ParseMeta(p, [], reverse) == ReadError
  {
  }

  lemma NewHasTarget(p: Parser, s: seq<Byte>, reverse: bool)
    ensures var r := ParseMeta(p, s, reverse);
            r.ReadOk? ==> r.value.id < 65536 && (r.value.status == NEW ==> r.value.target.Some?)
  {
  }

  /** A New frame opens a session here: its network is allowed, it is not a UDP handover, the
      dispatcher takes it and the table is open. */
  predicate Admits(allowed: Option<Network>, s: Server, meta: FrameMetadata, dispatched: bool)
    requires meta.target.Some?
  {
    && (allowed.None? || meta.target.value.network == allowed.value)
    && meta.globalID == NO_GLOBAL_ID && dispatched && !s.table.closed
  }

  /** Exactly when a frame does not break the connection. */
  ghost predicate Accepts(p: Parser, reverse: bool, allowed: Option<Network>, s: Server, from: seq<Byte>, dispatched: bool) {
    var m := ParseMeta(p, from, reverse);
    && m.ReadOk?
    && NEW <= m.value.status <= KEEPALIVE
    && DataAfter(m.value, AsPacket(s.table, m.value), m.rest).ok
    && (m.value.status == NEW ==> m.value.target.Some? && Admits(allowed, s, m.value, dispatched))
  }

  /** The stream does not break off inside the next frame's data. */
  ghost predicate Intact(p: Parser, reverse: bool, s: Server, from: seq<Byte>) {
    var m := ParseMeta(p, from, reverse);
    m.ReadOk? ==> DataAfter(m.value, AsPacket(s.table, m.value), m.rest).ok
  }

  /** A frame was taken from `from`, leaving `rest`, and did to the server what it says. */
  ghost predicate Consumed(p: Parser, reverse: bool, s: Server, from: seq<Byte>, written: seq<Byte>, closed: bool, t: Server, rest: seq<Byte>)
    requires ServerOk(s)
  {
    var m := ParseMeta(p, from, reverse);
    && m.ReadOk?
    && var meta := m.value;
       var d := DataAfter(meta, AsPacket(s.table, meta), m.rest);
       && rest == d.rest
       && written <= d.data
       && (!closed && Receives(s, meta) ==> written == d.data)
       && (closed ==> Receives(s, meta) && HasData(meta))
       && t == FrameAfter(s, meta, written, closed)
  }

  /** A session takes the frame's data. */
  predicate Receives(s: Server, meta: FrameMetadata) {
    meta.status == NEW || (meta.status == KEEP && meta.id in s.table.sessions)
  }
}
