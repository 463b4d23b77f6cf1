/** Many sessions over one connection: every session gets its own bytes, in order. */
module MuxDemux {
  import opened Bytes
  import opened Addresses
  import opened Frames
  import opened Sessions
  import opened MuxReader
  import opened MuxWriter
  import opened MuxServer

  /** A demultiplexer without buffers, failures or tables: which pipe each open session has, what
      each pipe got and who opened it. */
  datatype Ideal = Ideal(cur: map<nat, nat>, outs: seq<seq<Byte>>, owners: seq<nat>)

  ghost predicate IdealOk(i: Ideal) {
    && |i.owners| == |i.outs|
    && forall id | id in i.cur :: i.cur[id] < |i.outs| && i.owners[i.cur[id]] == id
  }

  function IdealStep(i: Ideal, f: Frame): Ideal
    requires IdealOk(i)
  {
    var id := f.meta.id;
    if f.meta.status == NEW then
      Ideal(i.cur[id := |i.outs|], i.outs + [Carried(f)], i.owners + [id])
    else if f.meta.status == KEEP && id in i.cur then
      i.(outs := i.outs[i.cur[id] := i.outs[i.cur[id]] + Carried(f)])
    else if f.meta.status == END then i.(cur := i.cur - {id})
    else i
  }

  function IdealRun(fs: seq<Frame>): (i: Ideal)
    ensures IdealOk(i)
  {
    if fs == [] then Ideal(map[], [], []) else IdealStep(IdealRun(fs[..|fs| - 1]), fs[|fs| - 1])
  }

  /** Pipes hold at most what they should, and every live session's pipe holds all of it. */
  ghost predicate Refines(s: Server, i: Ideal) {
    && ServerOk(s) && IdealOk(i) && |s.outputs| == |i.outs|
    && (forall k | 0 <= k < |s.outputs| :: s.outputs[k] <= i.outs[k])
    && (forall id | id in s.table.sessions ::
          id in i.cur && s.table.sessions[id].output == Some(i.cur[id]) && s.outputs[i.cur[id]] == i.outs[i.cur[id]])
  }

  /** Nothing was cut short. */
  ghost predicate Complete(s: Server, i: Ideal) {
    Refines(s, i) && s.outputs == i.outs && s.table.sessions.Keys == i.cur.Keys
  }

  /** The frame as its reader sees it. */
  ghost predicate Seen(meta: FrameMetadata, f: Frame) {
    meta.id == f.meta.id && meta.status == f.meta.status && meta.option == f.meta.option &&
    (HasData(f.meta) <==> f.data.Some?)
  }

  lemma NewRefines(s: Server, i: Ideal, f: Frame, meta: FrameMetadata, written: seq<Byte>, closed: bool)
    requires Refines(s, i) && meta.status == NEW && Seen(meta, f) && !s.table.closed
    requires written <= Carried(f) && (!closed ==> written == Carried(f))
    ensures Refines(FrameAfter(s, meta, written, closed), IdealStep(i, f))
  {
    hide Carried, HasData, Wrap;
    var t := FrameAfter(s, meta, written, closed);
    assert ServerOk(t) by {
      hide Refines, IdealStep;
    }
  }

  lemma NewCompletes(s: Server, i: Ideal, f: Frame, meta: FrameMetadata)
    requires Complete(s, i) && meta.status == NEW && Seen(meta, f) && !s.table.closed
    ensures Complete(FrameAfter(s, meta, Carried(f), false), IdealStep(i, f))
  {
    NewRefines(s, i, f, meta, Carried(f), false);
    hide Carried, HasData, Wrap, Refines;
  }

  lemma KeepRefines(s: Server, i: Ideal, f: Frame, meta: FrameMetadata, written: seq<Byte>, closed: bool)
    requires Refines(s, i) && meta.status == KEEP && Seen(meta, f)
    requires written <= Carried(f) && (!closed && meta.id in s.table.sessions ==> written == Carried(f))
    ensures ServerOk(FrameAfter(s, meta, written, closed))
    ensures Refines(FrameAfter(s, meta, written, closed), IdealStep(i, f))
    ensures Complete(s, i) && !closed ==> Complete(FrameAfter(s, meta, written, closed), IdealStep(i, f))
  {
  }

  lemma EndRefines(s: Server, i: Ideal, f: Frame, meta: FrameMetadata, written: seq<Byte>, closed: bool)
    requires Refines(s, i) && meta.status != NEW && meta.status != KEEP && Seen(meta, f)
    ensures ServerOk(FrameAfter(s, meta, written, closed))
    ensures Refines(FrameAfter(s, meta, written, closed), IdealStep(i, f))
    ensures Complete(s, i) ==> Complete(FrameAfter(s, meta, written, closed), IdealStep(i, f))
  {
  }

  lemma LoseRefines(s: Server, i: Ideal, gone: set<nat>, shut: bool)
    requires Refines(s, i)
    ensures Refines(s.(table := Lose(s.table, gone, shut)), i)
    ensures Complete(s, i) && !shut && gone == {} ==> Complete(s.(table := Lose(s.table, gone, shut)), i)
  {
  }

  /** Any frame: `calm` when its session, if it has one, did not break. */
  lemma FrameRefines(s: Server, i: Ideal, f: Frame, meta: FrameMetadata, written: seq<Byte>, closed: bool)
    requires Refines(s, i) && Seen(meta, f) && (meta.status == NEW ==> !s.table.closed)
    requires written <= Carried(f) && (!closed && Receives(s, meta) ==> written == Carried(f))
    ensures Refines(FrameAfter(s, meta, written, closed), IdealStep(i, f))
    ensures Complete(s, i) && !closed ==> Complete(FrameAfter(s, meta, written, closed), IdealStep(i, f))
  {
    assert IdealOk(i) && ServerOk(s);
    hide Refines, Complete, FrameAfter, IdealStep, Carried;
    if meta.status == NEW {
      NewRefines(s, i, f, meta, written, closed);
      if Complete(s, i) && !closed {
        NewCompletes(s, i, f, meta);
      }
    } else if meta.status == KEEP {
      KeepRefines(s, i, f, meta, written, closed);
    } else {
      EndRefines(s, i, f, meta, written, closed);
    }
  }

  // ----- from bytes to frames -----

  /** A frame that its reader understands. */
  ghost predicate WireOk(p: Parser, reverse: bool, f: Frame) {
    FrameOk(p, f) && Agreed(p, f.meta, f.udp, reverse) && BodyLength(p, f.meta, f.udp) <= MAX_META
  }

  ghost predicate AllWireOk(p: Parser, reverse: bool, fs: seq<Frame>) {
    forall i | 0 <= i < |fs| :: WireOk(p, reverse, fs[i])
  }

  lemma DataOnWire(f: Frame, meta: FrameMetadata, packet: bool, rest: seq<Byte>)
    requires Seen(meta, f) && (f.data.Some? ==> |f.data.value| <= SIZE)
    ensures DataAfter(meta, packet, DataBytes(f.data) + rest) == Decoded(Carried(f), rest, true)
  {
    hide OneChunk, OnePacket, PutUint16;
    if f.data.Some? {
      WholeChunk(f.data.value, rest);
      WholePacket(f.data.value, rest);
    } else {
      assert DataBytes(f.data) + rest == rest;
    }
  }

  lemma FrameOnWire(p: Parser, reverse: bool, f: Frame, rest: seq<Byte>)
    requires Sound(p) && WireOk(p, reverse, f)
    ensures ParseMeta(p, FrameBytes(p, f) + rest, reverse) == ReadOk(Received(f.meta, f.udp), DataBytes(f.data) + rest)
    ensures Seen(Received(f.meta, f.udp), f)
  {
    hide ParseMeta, MetaBytes, Agreed, BodyLength, Sound;
    FrameRoundTrip(p, f.meta, f.udp, reverse, DataBytes(f.data) + rest);
    assert FrameBytes(p, f) + rest == MetaBytes(p, f.meta, f.udp).bytes + (DataBytes(f.data) + rest);
  }

  /** A frame in front of a stream is consumed whole, and does what the ideal demultiplexer does. */
  lemma ConsumedRefines(p: Parser, reverse: bool, s: Server, i: Ideal, f: Frame, rest: seq<Byte>, written: seq<Byte>, closed: bool,
                        t: Server, left: seq<Byte>)
    requires Sound(p) && WireOk(p, reverse, f) && Refines(s, i)
    requires Consumed(p, reverse, s, FrameBytes(p, f) + rest, written, closed, t, left)
    requires f.meta.status == NEW ==> !s.table.closed
    ensures left == rest && Refines(t, IdealStep(i, f))
    ensures Complete(s, i) && !closed ==> Complete(t, IdealStep(i, f))
  {
    assert ServerOk(s) && IdealOk(i) && FrameOk(p, f);
    hide ParseMeta, FrameBytes, WireOk, Refines, Complete, FrameAfter, IdealStep, DataAfter, Received, Sound;
    FrameOnWire(p, reverse, f, rest);
    var m := ParseMeta(p, FrameBytes(p, f) + rest, reverse).value;
    DataOnWire(f, m, AsPacket(s.table, m), rest);
    FrameRefines(s, i, f, m, written, closed);
  }

  lemma NothingParses(p: Parser, reverse: bool, s: Server, allowed: Option<Network>, dispatched: bool)
    ensures Intact(p, reverse, s, []) && !Accepts(p, reverse, allowed, s, [], dispatched)
  {
  }

  lemma FrameIntact(p: Parser, reverse: bool, s: Server, f: Frame, rest: seq<Byte>, allowed: Option<Network>, dispatched: bool)
    requires Sound(p) && WireOk(p, reverse, f)
    ensures Intact(p, reverse, s, FrameBytes(p, f) + rest)
    ensures Accepts(p, reverse, allowed, s, FrameBytes(p, f) + rest, dispatched) <==> !Stops(allowed, s, f, dispatched)
    ensures f.meta.status == NEW && !Stops(allowed, s, f, dispatched) ==> !s.table.closed
  {
    assert FrameOk(p, f);
    hide ParseMeta, FrameBytes, WireOk, DataAfter, Received, Sound;
    FrameOnWire(p, reverse, f, rest);
    var m := ParseMeta(p, FrameBytes(p, f) + rest, reverse).value;
    DataOnWire(f, m, AsPacket(s.table, m), rest);
  }

  lemma Beginning(fs: seq<Frame>)
    ensures fs[..0] == [] && fs[0..] == fs
    ensures Complete(Server(NEW_TABLE, [], []), IdealRun(fs[..0])) && Refines(Server(NEW_TABLE, [], []), IdealRun(fs[..0]))
  {
  }

  lemma NextFrame(p: Parser, fs: seq<Frame>, n: nat)
    requires AllOk(p, fs) && n <= |fs|
    ensures n == |fs| ==> AllBytes(p, fs[n..]) == []
    ensures n < |fs| ==> AllBytes(p, fs[n..]) == FrameBytes(p, fs[n]) + AllBytes(p, fs[n + 1..])
    ensures n < |fs| ==> IdealRun(fs[..n + 1]) == IdealStep(IdealRun(fs[..n]), fs[n])
  {
    if n < |fs| {
      assert fs[n..][1..] == fs[n + 1..] && fs[..n + 1][..n] == fs[..n];
    }
  }

  /** What the rest of the program does around one frame: sessions lost, the connection shut, whether a
      new session would be dispatched, and after how many writes the pipe in use breaks. */
  datatype Turn = Turn(gone: set<nat>, shut: bool, dispatched: bool, limit: Option<nat>)

  predicate Gentle(t: Turn) {
    t.gone == {} && !t.shut && t.limit.None?
  }

  // ----- the answers to frames of sessions that are not there -----

  /** A session of `id` outlives one turn: it is not lost, its connection not shut, and a frame of its own
      neither ends it nor breaks its pipe. */
  predicate Survives(f: Frame, turn: Turn, broke: bool, id: nat) {
    id !in turn.gone && !turn.shut && !(f.meta.id == id && (f.meta.status == END || broke))
  }

  /** After the frames there is a session of `id`: a New frame opened it, and it outlived all turns since. */
  ghost predicate Standing(fs: seq<Frame>, world: nat -> Turn, broke: seq<bool>, id: nat)
    requires |broke| == |fs|
  {
    exists j | 0 <= j < |fs| ::
      fs[j].meta.status == NEW && fs[j].meta.id == id && !broke[j] &&
      forall i | j < i < |fs| :: Survives(fs[i], world(i), broke[i], id)
  }

  /** The next frame, if it is of `id`, meets a live session. */
  ghost predicate Meets(fs: seq<Frame>, world: nat -> Turn, broke: seq<bool>, id: nat)
    requires |broke| == |fs|
  {
    Standing(fs, world, broke, id) && id !in world(|fs|).gone && !world(|fs|).shut
  }

  /** The IDs, in order, of the Keep frames with data that met no session. */
  ghost function Answers(fs: seq<Frame>, world: nat -> Turn, broke: seq<bool>): seq<nat>
    requires |broke| == |fs|
  {
    if fs == [] then []
    else
      var n := |fs| - 1;
      var f := fs[n];
      Answers(fs[..n], world, broke[..n]) +
      if f.meta.status == KEEP && f.data.Some? && !Meets(fs[..n], world, broke[..n], f.meta.id) then [f.meta.id] else []
  }

  lemma StandingStep(fs: seq<Frame>, world: nat -> Turn, broke: seq<bool>, f: Frame, b: bool, id: nat)
    requires |broke| == |fs|
    ensures Standing(fs + [f], world, broke + [b], id) <==>
            (f.meta.status == NEW && f.meta.id == id && !b) ||
            (Standing(fs, world, broke, id) && Survives(f, world(|fs|), b, id))
  {
    hide Survives;
    var gs, cs := fs + [f], broke + [b];
    assert gs[|fs|] == f && cs[|fs|] == b;
    assert forall i | 0 <= i < |fs| :: gs[i] == fs[i] && cs[i] == broke[i];
    if Standing(fs, world, broke, id) && Survives(f, world(|fs|), b, id) {
      var j :| 0 <= j < |fs| && fs[j].meta.status == NEW && fs[j].meta.id == id && !broke[j] &&
               forall i | j < i < |fs| :: Survives(fs[i], world(i), broke[i], id);
      assert gs[j].meta.status == NEW && gs[j].meta.id == id && !cs[j];
    }
  }

  /** The server's table and answers are what frames and losses say. */
  ghost predicate Answered(s: Server, fs: seq<Frame>, world: nat -> Turn, broke: seq<bool>) {
    && |broke| == |fs|
    && (forall id :: id in s.table.sessions <==> Standing(fs, world, broke, id))
    && s.replies == Answers(fs, world, broke)
    && (s.table.closed <==> exists j :: 0 <= j < |fs| && world(j).shut)
  }

  lemma LoseMeets(s: Server, fs: seq<Frame>, world: nat -> Turn, broke: seq<bool>, id: nat)
    requires ServerOk(s) && Answered(s, fs, world, broke)
    ensures var turn := world(|fs|);
            id in Lose(s.table, turn.gone, turn.shut).sessions <==> Meets(fs, world, broke, id)
  {
    hide Standing, Answers;
  }

  lemma LoseShuts(s: Server, fs: seq<Frame>, world: nat -> Turn, broke: seq<bool>)
    requires Answered(s, fs, world, broke)
    ensures var turn := world(|fs|);
            Lose(s.table, turn.gone, turn.shut).closed <==> exists j :: 0 <= j <= |fs| && world(j).shut
  {
    hide Standing, Answers;
  }

  lemma SessionsAfter(s: Server, meta: FrameMetadata, written: seq<Byte>, closed: bool, id: nat)
    requires ServerOk(s) && (meta.status == NEW ==> !s.table.closed)
    requires closed ==> Receives(s, meta) && HasData(meta)
    ensures id in FrameAfter(s, meta, written, closed).table.sessions <==>
            (meta.status == NEW && meta.id == id && !closed) ||
            (id in s.table.sessions && !(meta.id == id && (meta.status == END || closed)))
    ensures FrameAfter(s, meta, written, closed).table.closed == s.table.closed
  {
  }

  lemma FrameAnswered(s: Server, fs: seq<Frame>, world: nat -> Turn, broke: seq<bool>, f: Frame, meta: FrameMetadata,
                      written: seq<Byte>, closed: bool)
    requires ServerOk(s) && Answered(s, fs, world, broke) && Seen(meta, f)
    requires var turn := world(|fs|);
             var t := s.(table := Lose(s.table, turn.gone, turn.shut));
             && ServerOk(t) && (meta.status == NEW ==> !t.table.closed)
             && (closed ==> Receives(t, meta) && HasData(meta))
    ensures var turn := world(|fs|);
            var t := s.(table := Lose(s.table, turn.gone, turn.shut));
            Answered(FrameAfter(t, meta, written, closed), fs + [f], world, broke + [closed])
  {
    hide Standing, Lose, Answers;
    var turn := world(|fs|);
    var t := s.(table := Lose(s.table, turn.gone, turn.shut));
    var u := FrameAfter(t, meta, written, closed);
    forall id
      ensures id in u.table.sessions <==> Standing(fs + [f], world, broke + [closed], id)
    {
      hide FrameAfter;
      LoseMeets(s, fs, world, broke, id);
      SessionsAfter(t, meta, written, closed, id);
      StandingStep(fs, world, broke, f, closed, id);
    }
    LoseMeets(s, fs, world, broke, f.meta.id);
    LoseShuts(s, fs, world, broke);
    SessionsAfter(t, meta, written, closed, f.meta.id);
    AnswersSnoc(fs, world, broke, f, closed);
  }

  lemma AnswersSnoc(fs: seq<Frame>, world: nat -> Turn, broke: seq<bool>, f: Frame, b: bool)
    requires |broke| == |fs|
    ensures Answers(fs + [f], world, broke + [b]) ==
            Answers(fs, world, broke) +
            if f.meta.status == KEEP && f.data.Some? && !Meets(fs, world, broke, f.meta.id) then [f.meta.id] else []
  {
    hide Meets;
    assert (fs + [f])[..|fs|] == fs && (broke + [b])[..|fs|] == broke;
  }

  lemma NoneAnswered(world: nat -> Turn)
    ensures Answered(Server(NEW_TABLE, [], []), [], world, [])
  {
  }

  /** A whole turn of the loop. */
  lemma ConsumedAnswered(p: Parser, reverse: bool, s: Server, fs: seq<Frame>, world: nat -> Turn, broke: seq<bool>,
                         f: Frame, rest: seq<Byte>, t: Server, written: seq<Byte>, closed: bool, u: Server, left: seq<Byte>)
    requires Sound(p) && WireOk(p, reverse, f) && ServerOk(s) && Answered(s, fs, world, broke)
    requires t == s.(table := Lose(s.table, world(|fs|).gone, world(|fs|).shut)) && ServerOk(t)
    requires FrameOk(p, f) && Consumed(p, reverse, t, FrameBytes(p, f) + rest, written, closed, u, left)
    requires f.meta.status == NEW ==> !t.table.closed
    ensures Answered(u, fs + [f], world, broke + [closed])
  {
    hide ParseMeta, FrameBytes, WireOk, ServerOk, Answered, FrameAfter, DataAfter, Received, Sound, Lose;
    FrameOnWire(p, reverse, f, rest);
    var m := ParseMeta(p, FrameBytes(p, f) + rest, reverse).value;
    FrameAnswered(s, fs, world, broke, f, m, written, closed);
  }

  /** The connection ends with frame i: its status is unknown, or it is a New frame for a network that is not
      allowed, with a global ID, refused by the dispatcher, or on a connection shut before. */
  ghost predicate EndsAt(allowed: Option<Network>, world: nat -> Turn, f: Frame, i: nat) {
    || f.meta.status < 1 || f.meta.status > 4
    || (&& f.meta.status == 1 && f.meta.target.Some?
        && var network := f.meta.target.value.network;
           || (allowed.Some? && network != allowed.value)
           || (f.meta.inbound.None? && f.data.Some? && network == UDP && f.udp.Some? && f.meta.globalID != [0, 0, 0, 0, 0, 0, 0, 0])
           || !world(i).dispatched
           || exists j :: 0 <= j <= i && world(j).shut)
  }

  lemma StopsExactly(p: Parser, allowed: Option<Network>, s: Server, fs: seq<Frame>, world: nat -> Turn, broke: seq<bool>, f: Frame)
    requires FrameOk(p, f) && Answered(s, fs, world, broke)
    ensures var turn := world(|fs|);
            var t := s.(table := Lose(s.table, turn.gone, turn.shut));
            Stops(allowed, t, f, turn.dispatched) <==> EndsAt(allowed, world, f, |fs|)
  {
    hide Lose, Answered, MetaBytes;
    LoseShuts(s, fs, world, broke);
  }

  /** The same when nothing is lost: the ideal demultiplexer alone tells the answers. */
  function Unknown(fs: seq<Frame>): seq<nat> {
    if fs == [] then []
    else
      var n := |fs| - 1;
      var f := fs[n];
      Unknown(fs[..n]) +
      if f.meta.status == KEEP && f.data.Some? && f.meta.id !in IdealRun(fs[..n]).cur then [f.meta.id] else []
  }

  lemma CurAfter(i: Ideal, f: Frame, id: nat)
    requires IdealOk(i)
    ensures id in IdealStep(i, f).cur <==>
            (f.meta.status == NEW && f.meta.id == id) || (id in i.cur && !(f.meta.id == id && f.meta.status == END))
  {
  }

  lemma {:induction false} GentleAnswers(fs: seq<Frame>, world: nat -> Turn, broke: seq<bool>)
    requires |broke| == |fs| && forall i | 0 <= i < |fs| :: Gentle(world(i)) && !broke[i]
    ensures forall id :: Standing(fs, world, broke, id) <==> id in IdealRun(fs).cur
    ensures Answers(fs, world, broke) == Unknown(fs)
    decreases |fs|
  {
    if fs != [] {
      var n := |fs| - 1;
      GentleAnswers(fs[..n], world, broke[..n]);
      assert fs == fs[..n] + [fs[n]] && broke == broke[..n] + [broke[n]];
      assert Gentle(world(n));
      hide Standing, Answers, IdealOk, IdealStep;
      AnswersSnoc(fs[..n], world, broke[..n], fs[n], broke[n]);
      forall id
        ensures Standing(fs, world, broke, id) <==> id in IdealRun(fs).cur
      {
        StandingStep(fs[..n], world, broke[..n], fs[n], broke[n], id);
        CurAfter(IdealRun(fs[..n]), fs[n], id);
      }
    }
  }

  function Lost(s: Server, turn: Turn): Server {
    s.(table := Lose(s.table, turn.gone, turn.shut))
  }

  /** The server after n frames. */
  ghost predicate Tracked(allowed: Option<Network>, s: Server, fs: seq<Frame>, n: nat, world: nat -> Turn, broke: seq<bool>) {
    && n <= |fs| && Refines(s, IdealRun(fs[..n])) && Answered(s, fs[..n], world, broke)
    && ((forall i | 0 <= i < n :: Gentle(world(i))) ==> Complete(s, IdealRun(fs[..n])))
    && (forall i | 0 <= i < n :: !EndsAt(allowed, world, fs[i], i))
    && (forall i | 0 <= i < n && broke[i] :: world(i).limit.Some?)
  }

  lemma TurnBegins(p: Parser, reverse: bool, allowed: Option<Network>, s: Server, fs: seq<Frame>, n: nat, world: nat -> Turn,
                   broke: seq<bool>)
    requires Tracked(allowed, s, fs, n, world, broke) && Sound(p) && AllOk(p, fs) && AllWireOk(p, reverse, fs)
    ensures var t, from := Lost(s, world(n)), AllBytes(p, fs[n..]);
            && ServerOk(t) && Intact(p, reverse, t, from)
            && (Accepts(p, reverse, allowed, t, from, world(n).dispatched) <==> n < |fs| && !EndsAt(allowed, world, fs[n], n))
  {
    hide Complete, IdealStep, Sound, WireOk, FrameOk, AllBytes, IdealRun, FrameBytes, Lose, Intact, Accepts, Stops, Answered, EndsAt;
    var turn := world(n);
    LoseRefines(s, IdealRun(fs[..n]), turn.gone, turn.shut);
    NextFrame(p, fs, n);
    var t := Lost(s, turn);
    if n == |fs| {
      NothingParses(p, reverse, t, allowed, turn.dispatched);
    } else {
      FrameIntact(p, reverse, t, fs[n], AllBytes(p, fs[n + 1..]), allowed, turn.dispatched);
      StopsExactly(p, allowed, s, fs[..n], world, broke, fs[n]);
    }
  }

  lemma NewMeetsOpen(p: Parser, allowed: Option<Network>, s: Server, fs: seq<Frame>, world: nat -> Turn, broke: seq<bool>, f: Frame)
    requires FrameOk(p, f) && Answered(s, fs, world, broke) && !EndsAt(allowed, world, f, |fs|)
    ensures f.meta.status == NEW ==> !Lost(s, world(|fs|)).table.closed
  {
    hide Lose, Answered, MetaBytes;
    LoseShuts(s, fs, world, broke);
  }

  lemma TurnRefines(p: Parser, reverse: bool, s: Server, fs: seq<Frame>, n: nat, turn: Turn, written: seq<Byte>, closed: bool,
                    u: Server, left: seq<Byte>)
    requires Sound(p) && AllOk(p, fs) && AllWireOk(p, reverse, fs) && n < |fs|
    requires Refines(s, IdealRun(fs[..n])) && ServerOk(Lost(s, turn))
    requires fs[n].meta.status == NEW ==> !Lost(s, turn).table.closed
    requires Consumed(p, reverse, Lost(s, turn), AllBytes(p, fs[n..]), written, closed, u, left)
    ensures left == AllBytes(p, fs[n + 1..]) && Refines(u, IdealRun(fs[..n + 1]))
    ensures Complete(s, IdealRun(fs[..n])) && Gentle(turn) && !closed ==> Complete(u, IdealRun(fs[..n + 1]))
  {
    hide Refines, Complete, Consumed, IdealStep, Sound, WireOk, FrameOk, AllBytes, IdealRun, FrameBytes, Lose, ServerOk;
    LoseRefines(s, IdealRun(fs[..n]), turn.gone, turn.shut);
    NextFrame(p, fs, n);
    ConsumedRefines(p, reverse, Lost(s, turn), IdealRun(fs[..n]), fs[n], AllBytes(p, fs[n + 1..]), written, closed, u, left);
  }

  lemma TurnEnds(p: Parser, reverse: bool, allowed: Option<Network>, s: Server, fs: seq<Frame>, n: nat, world: nat -> Turn,
                 broke: seq<bool>, written: seq<Byte>, closed: bool, u: Server, left: seq<Byte>)
    requires Tracked(allowed, s, fs, n, world, broke) && Sound(p) && AllOk(p, fs) && AllWireOk(p, reverse, fs)
    requires n < |fs| && !EndsAt(allowed, world, fs[n], n) && (closed ==> world(n).limit.Some?)
    requires ServerOk(Lost(s, world(n)))
    requires Consumed(p, reverse, Lost(s, world(n)), AllBytes(p, fs[n..]), written, closed, u, left)
    ensures left == AllBytes(p, fs[n + 1..]) && Tracked(allowed, u, fs, n + 1, world, broke + [closed])
  {
    hide Refines, Complete, Consumed, Sound, WireOk, FrameOk, AllBytes, IdealRun, FrameBytes, Lost, Answered, EndsAt, ServerOk, Tracked, Gentle;
    TrackedGives(allowed, s, fs, n, world, broke);
    NewMeetsOpen(p, allowed, s, fs[..n], world, broke, fs[n]);
    TurnRefines(p, reverse, s, fs, n, world(n), written, closed, u, left);
    TurnAnswered(p, reverse, s, fs, n, world, broke, written, closed, u, left);
    TrackedMore(allowed, s, u, fs, n, world, broke, closed);
  }

  lemma TrackedGives(allowed: Option<Network>, s: Server, fs: seq<Frame>, n: nat, world: nat -> Turn, broke: seq<bool>)
    requires Tracked(allowed, s, fs, n, world, broke)
    ensures n <= |fs| && ServerOk(s) && Refines(s, IdealRun(fs[..n])) && Answered(s, fs[..n], world, broke)
  {
  }

  lemma TrackedMore(allowed: Option<Network>, s: Server, u: Server, fs: seq<Frame>, n: nat, world: nat -> Turn, broke: seq<bool>,
                    closed: bool)
    requires Tracked(allowed, s, fs, n, world, broke) && n < |fs| && !EndsAt(allowed, world, fs[n], n)
    requires closed ==> world(n).limit.Some?
    requires Refines(u, IdealRun(fs[..n + 1])) && Answered(u, fs[..n + 1], world, broke + [closed])
    requires Complete(s, IdealRun(fs[..n])) && Gentle(world(n)) && !closed ==> Complete(u, IdealRun(fs[..n + 1]))
    ensures Tracked(allowed, u, fs, n + 1, world, broke + [closed])
  {
    hide Refines, Complete, IdealRun, Answered, EndsAt;
    AnsweredLength(s, fs[..n], world, broke);
    assert Gentle(world(n)) ==> !closed;
    hide Gentle;
  }

  lemma TurnAnswered(p: Parser, reverse: bool, s: Server, fs: seq<Frame>, n: nat, world: nat -> Turn, broke: seq<bool>,
                     written: seq<Byte>, closed: bool, u: Server, left: seq<Byte>)
    requires Sound(p) && AllOk(p, fs) && AllWireOk(p, reverse, fs) && n < |fs|
    requires ServerOk(s) && ServerOk(Lost(s, world(n))) && Answered(s, fs[..n], world, broke)
    requires fs[n].meta.status == NEW ==> !Lost(s, world(n)).table.closed
    requires Consumed(p, reverse, Lost(s, world(n)), AllBytes(p, fs[n..]), written, closed, u, left)
    ensures Answered(u, fs[..n + 1], world, broke + [closed])
  {
    hide Consumed, Sound, WireOk, FrameOk, AllBytes, FrameBytes, Answered, ServerOk, Lose;
    NextFrame(p, fs, n);
    ConsumedAnswered(p, reverse, s, fs[..n], world, broke, fs[n], AllBytes(p, fs[n + 1..]), Lost(s, world(n)), written, closed, u, left);
    assert fs[..n + 1] == fs[..n] + [fs[n]];
  }

  lemma AnsweredLength(s: Server, fs: seq<Frame>, world: nat -> Turn, broke: seq<bool>)
    requires Answered(s, fs, world, broke)
    ensures |broke| == |fs|
  {
  }

  /**
   * ServerWorker.run on a stream of whole frames, cut by the link in any way, in any world. `n` frames are
   * handled: all of them, unless a New frame is not admitted or a status is unknown.
   */
  method Run(w: ServerWorker, world: nat -> Turn, ghost fs: seq<Frame>) returns (n: nat, ghost broke: seq<bool>)
    requires w.Ok() && w.State() == Server(NEW_TABLE, [], [])
    requires Sound(w.p) && AllWireOk(w.p, w.reverse, fs) && AllOk(w.p, fs)
    requires w.reader.Pending() == AllBytes(w.p, fs)
    modifies w, w.reader, w.manager
    ensures w.Ok() && n <= |fs|
    // where the run ends
    ensures n < |fs| ==> EndsAt(w.allowed, world, fs[n], n)
    ensures forall i | 0 <= i < n :: !EndsAt(w.allowed, world, fs[i], i)
    // the pipes
    ensures Refines(w.State(), IdealRun(fs[..n]))
    ensures (forall i | 0 <= i <= n :: Gentle(world(i))) ==> Complete(w.State(), IdealRun(fs[..n]))
    // broke[i]: the pipe that frame i's data went to broke
    ensures |broke| == n && forall i | 0 <= i < n && broke[i] :: world(i).limit.Some?
    // exactly the Keep frames with data that met no session were answered, each with an End frame
    ensures w.replies == Answers(fs[..n], world, broke)
    ensures AllOk(w.p, Ends(w.replies)) && w.link == AllBytes(w.p, Ends(w.replies))
    ensures (forall i | 0 <= i < n :: Gentle(world(i))) ==> w.replies == Unknown(fs[..n])
  {
    hide Refines, Complete, Consumed, Sound, WireOk, FrameOk, AllBytes, IdealRun, Lose, Intact, Accepts, ServerOk;
    hide Answered, Answers, Unknown, EndsAt, Tracked, Gentle;
    n, broke := 0, [];
    RunBegins(w.allowed, fs, world);
    while true
      invariant w.Ok() && n <= |fs|
      invariant w.reader.Pending() == AllBytes(w.p, fs[n..])
      invariant Tracked(w.allowed, w.State(), fs, n, world, broke)
      decreases |fs| - n
    {
      var turn := world(n);
      ghost var s, from := w.State(), w.reader.Pending();
      TurnBegins(w.p, w.reverse, w.allowed, s, fs, n, world, broke);
      w.Others(turn.gone, turn.shut);
      var r, written, closed, ended := w.HandleFrame(turn.dispatched, turn.limit);
      if !r.Done? {
        RunEnds(w.allowed, s, fs, n, world, broke);
        return;
      }
      TurnEnds(w.p, w.reverse, w.allowed, s, fs, n, world, broke, written, closed, w.State(), w.reader.Pending());
      broke := broke + [closed];
      n := n + 1;
    }
  }

  lemma RunBegins(allowed: Option<Network>, fs: seq<Frame>, world: nat -> Turn)
    ensures fs[0..] == fs && Tracked(allowed, Server(NEW_TABLE, [], []), fs, 0, world, [])
  {
    Beginning(fs);
    NoneAnswered(world);
  }

  lemma RunEnds(allowed: Option<Network>, s: Server, fs: seq<Frame>, n: nat, world: nat -> Turn, broke: seq<bool>)
    requires Tracked(allowed, s, fs, n, world, broke)
    ensures Refines(Lost(s, world(n)), IdealRun(fs[..n]))
    ensures (forall i | 0 <= i <= n :: Gentle(world(i))) ==> Complete(Lost(s, world(n)), IdealRun(fs[..n]))
    ensures forall i | 0 <= i < n :: !EndsAt(allowed, world, fs[i], i)
    ensures |broke| == n && forall i | 0 <= i < n && broke[i] :: world(i).limit.Some?
    ensures s.replies == Answers(fs[..n], world, broke)
    ensures (forall i | 0 <= i < n :: Gentle(world(i))) ==> s.replies == Unknown(fs[..n])
  {
    hide Refines, Complete, IdealRun, Lose, EndsAt, Answers;
    LoseRefines(s, IdealRun(fs[..n]), world(n).gone, world(n).shut);
    RunAnswers(s, fs[..n], world, broke);
  }

  lemma RunAnswers(s: Server, fs: seq<Frame>, world: nat -> Turn, broke: seq<bool>)
    requires Answered(s, fs, world, broke) && forall i | 0 <= i < |fs| && broke[i] :: world(i).limit.Some?
    ensures s.replies == Answers(fs, world, broke)
    ensures (forall i | 0 <= i < |fs| :: Gentle(world(i))) ==> s.replies == Unknown(fs)
  {
    if forall i | 0 <= i < |fs| :: Gentle(world(i)) {
      GentleAnswers(fs, world, broke);
    }
  }

  /** Where the connection breaks: a New frame that is not admitted, or an unknown status. */
  predicate Stops(allowed: Option<Network>, s: Server, f: Frame, dispatched: bool) {
    || !(NEW <= f.meta.status <= KEEPALIVE)
    || (f.meta.status == NEW && f.meta.target.Some? && !Admits(allowed, s, Received(f.meta, f.udp), dispatched))
  }

  // ----- from frames to sessions -----

  /** The frames of one session among all frames. */
  function Project(fs: seq<Frame>, id: nat): seq<Frame> {
    if fs == [] then []
    else
      var n := |fs| - 1;
      Project(fs[..n], id) + if fs[n].meta.id == id then [fs[n]] else []
  }

  /** What a writer makes, up to any point: New, then Keep, and nothing after an End. */
  ghost predicate OneTalk(fs: seq<Frame>) {
    && (forall i | 0 <= i < |fs| :: fs[i].meta.status == NEW <==> i == 0)
    && (forall i | 0 <= i < |fs| :: KEEP <= fs[i].meta.status <= END || i == 0)
    && (forall i | 0 <= i < |fs| - 1 :: fs[i].meta.status != END)
    && (forall i | 0 <= i < |fs| && fs[i].meta.status == END :: Carried(fs[i]) == [])
  }

  lemma OneTalkPrefix(fs: seq<Frame>, n: nat)
    requires OneTalk(fs) && n <= |fs|
    ensures OneTalk(fs[..n])
  {
    assert forall i | 0 <= i < n :: fs[..n][i] == fs[i];
  }

  /** The frames a writer has sent are such a list, with or without the closing frame. */
  lemma WriterTalks(fs: seq<Frame>, id: nat, hasError: bool)
    requires Talk(fs, id, false)
    ensures OneTalk(fs)
    ensures fs != [] ==> OneTalk(fs + [EndFrame(id, hasError)]) && Payload(fs + [EndFrame(id, hasError)]) == Payload(fs)
  {
    PayloadSnoc(fs, EndFrame(id, hasError));
    var gs := fs + [EndFrame(id, hasError)];
    assert forall i | 0 <= i < |fs| :: gs[i] == fs[i];
  }

  /** Where one session stands in the ideal demultiplexer: its only pipe is `k`. */
  ghost predicate Stands(i: Ideal, id: nat, g: seq<Frame>, k: nat) {
    && IdealOk(i) && k < |i.outs|
    && (forall j | 0 <= j < |i.owners| :: i.owners[j] == id <==> j == k)
    && i.outs[k] == Payload(g)
    && (id in i.cur <==> g != [] && g[|g| - 1].meta.status != END)
  }

  ghost predicate Absent(i: Ideal, id: nat) {
    IdealOk(i) && id !in i.cur && forall j | 0 <= j < |i.owners| :: i.owners[j] != id
  }

  lemma OtherFrame(i: Ideal, id: nat, g: seq<Frame>, k: nat, f: Frame)
    requires f.meta.id != id && (Absent(i, id) || Stands(i, id, g, k))
    ensures Absent(i, id) ==> Absent(IdealStep(i, f), id)
    ensures Stands(i, id, g, k) ==> Stands(IdealStep(i, f), id, g, k)
  {
    hide Payload;
  }

  lemma OwnFrame(i: Ideal, id: nat, g: seq<Frame>, k: nat, f: Frame)
    requires f.meta.id == id && (f.meta.status == KEEP || (f.meta.status == END && Carried(f) == []))
    requires Stands(i, id, g, k) && g != [] && g[|g| - 1].meta.status != END
    ensures Stands(IdealStep(i, f), id, g + [f], k)
  {
    PayloadSnoc(g, f);
    assert (g + [f])[|g|] == f;
    hide Payload, Carried;
  }

  lemma FirstFrame(i: Ideal, f: Frame)
    requires Absent(i, f.meta.id) && f.meta.status == NEW
    ensures Stands(IdealStep(i, f), f.meta.id, [f], |i.outs|)
  {
    PayloadSnoc([], f);
    assert [] + [f] == [f];
    hide Payload;
  }

  /** A session's place depends on its own frames only, however the others are mixed in. */
  lemma {:induction false} ProjectDecides(fs: seq<Frame>, id: nat) returns (k: nat)
    requires OneTalk(Project(fs, id))
    ensures Project(fs, id) == [] ==> Absent(IdealRun(fs), id)
    ensures Project(fs, id) != [] ==> Stands(IdealRun(fs), id, Project(fs, id), k)
  {
    k := 0;
    if fs != [] {
      var n := |fs| - 1;
      var f, before, g := fs[n], IdealRun(fs[..n]), Project(fs[..n], id);
      hide Stands, Absent, IdealStep, Payload;
      if f.meta.id != id {
        assert Project(fs, id) == g;
        k := ProjectDecides(fs[..n], id);
        OtherFrame(before, id, g, k, f);
      } else {
        assert Project(fs, id) == g + [f];
        OneTalkPrefix(g + [f], |g|);
        assert (g + [f])[..|g|] == g && (g + [f])[|g|] == f;
        k := ProjectDecides(fs[..n], id);
        if g == [] {
          FirstFrame(before, f);
          assert [] + [f] == [f];
          k := |before.outs|;
        } else {
          assert g[|g| - 1] == (g + [f])[|g| - 1];
          OwnFrame(before, id, g, k, f);
        }
      }
    }
  }

  /**
   * The demultiplexing theorem. After any run over any interleaving in which the frames of session
   * `id` are what one writer sent, there is exactly one pipe for it; the pipe holds a prefix of the
   * writer's bytes, all of them while the session is live, and all of them if nothing was lost.
   */
  lemma SessionGetsItsBytes(s: Server, fs: seq<Frame>, id: nat) returns (k: nat)
    requires Refines(s, IdealRun(fs)) && Project(fs, id) != [] && OneTalk(Project(fs, id))
    ensures k < |s.outputs| && (forall j | 0 <= j < |s.outputs| :: IdealRun(fs).owners[j] == id <==> j == k)
    ensures s.outputs[k] <= Payload(Project(fs, id))
    ensures id in s.table.sessions ==>
              s.table.sessions[id].output == Some(k) && s.outputs[k] == Payload(Project(fs, id))
    ensures Complete(s, IdealRun(fs)) ==>
              s.outputs[k] == Payload(Project(fs, id)) &&
              (id in s.table.sessions <==> Project(fs, id)[|Project(fs, id)| - 1].meta.status != END)
  {
    k := ProjectDecides(fs, id);
    hide IdealRun, Project, Payload, OneTalk;
  }

  /** The same from the writer's side: what it was given is what the live session's pipe holds. */
  lemma WriterBytesArrive(s: Server, fs: seq<Frame>, id: nat, ws: seq<Frame>, ended: bool, hasError: bool) returns (k: nat)
    requires Refines(s, IdealRun(fs)) && ws != [] && Talk(ws, id, false)
    requires Project(fs, id) == if ended then ws + [EndFrame(id, hasError)] else ws
    ensures k < |s.outputs| && IdealRun(fs).owners[k] == id && s.outputs[k] <= Payload(ws)
    ensures id in s.table.sessions ==> s.table.sessions[id].output == Some(k) && s.outputs[k] == Payload(ws)
    ensures Complete(s, IdealRun(fs)) ==> s.outputs[k] == Payload(ws) && (id in s.table.sessions <==> !ended)
  {
    WriterTalks(ws, id, hasError);
    k := SessionGetsItsBytes(s, fs, id);
    hide IdealRun, Payload, OneTalk;
  }

  /** Frames with canonical addresses, whose source and local are IPs, are always understood. */
  lemma UnderstoodFrame(p: Parser, reverse: bool, f: Frame)
    requires Sound(p) && FrameOk(p, f) && Agreed(p, f.meta, f.udp, reverse)
    requires f.meta.status != NEW || f.meta.inbound.None? || IPOnly(f.meta.inbound.value)
    ensures WireOk(p, reverse, f)
  {
    BodyRoundTrip(p, f.meta, f.udp, reverse);
  }

  // ----- session IDs that are used again -----

  /** What the frames of one ID amount to: what each session opened under it received, and whether the
      last one is still open. */
  datatype Told = Told(outs: seq<seq<Byte>>, open: bool)

  function TellMore(t: Told, f: Frame): Told {
    if f.meta.status == NEW then Told(t.outs + [Carried(f)], true)
    else if f.meta.status == KEEP && t.open && t.outs != [] then
      var n := |t.outs| - 1;
      t.(outs := t.outs[n := t.outs[n] + Carried(f)])
    else if f.meta.status == END then t.(open := false)
    else t
  }

  function Tell(g: seq<Frame>): Told {
    if g == [] then Told([], false) else TellMore(Tell(g[..|g| - 1]), g[|g| - 1])
  }

  /** The pipes that an ID opened, in order. */
  function Pipes(owners: seq<nat>, id: nat): (ps: seq<nat>)
    ensures forall n | 0 <= n < |ps| :: ps[n] < |owners| && owners[ps[n]] == id
    ensures forall n, m | 0 <= n < m < |ps| :: ps[n] < ps[m]
  {
    if owners == [] then []
    else
      var k := |owners| - 1;
      Pipes(owners[..k], id) + if owners[k] == id then [k] else []
  }

  ghost predicate Tells(i: Ideal, id: nat, t: Told) {
    var ps := Pipes(i.owners, id);
    && IdealOk(i) && |ps| == |t.outs|
    && (forall n | 0 <= n < |ps| :: i.outs[ps[n]] == t.outs[n])
    && (id in i.cur <==> t.open)
    && (t.open ==> ps != [] && i.cur[id] == ps[|ps| - 1])
  }

  lemma OtherTells(i: Ideal, id: nat, t: Told, f: Frame)
    requires f.meta.id != id && Tells(i, id, t)
    ensures Tells(IdealStep(i, f), id, t)
  {
    hide Carried;
    if f.meta.status == NEW {
      assert (i.owners + [f.meta.id])[..|i.owners|] == i.owners;
    }
  }

  lemma OwnTells(i: Ideal, id: nat, t: Told, f: Frame)
    requires f.meta.id == id && Tells(i, id, t)
    ensures Tells(IdealStep(i, f), id, TellMore(t, f))
  {
    hide Carried;
    if f.meta.status == NEW {
      NewTells(i, t, f);
    } else {
      hide Pipes;
    }
  }

  lemma NewTells(i: Ideal, t: Told, f: Frame)
    requires f.meta.status == NEW && Tells(i, f.meta.id, t)
    ensures Tells(IdealStep(i, f), f.meta.id, TellMore(t, f))
  {
    hide Carried;
    assert (i.owners + [f.meta.id])[..|i.owners|] == i.owners;
    assert Pipes(i.owners + [f.meta.id], f.meta.id) == Pipes(i.owners, f.meta.id) + [|i.owners|];
    hide Pipes;
  }

  /** For every stream of frames: what the sessions under one ID receive is told by its own frames. */
  lemma {:induction false} ProjectTells(fs: seq<Frame>, id: nat)
    ensures Tells(IdealRun(fs), id, Tell(Project(fs, id)))
  {
    if fs != [] {
      var n := |fs| - 1;
      ProjectTells(fs[..n], id);
      var g := Project(fs[..n], id);
      hide Tells, IdealStep, TellMore;
      if fs[n].meta.id == id {
        assert (g + [fs[n]])[..|g|] == g;
        OwnTells(IdealRun(fs[..n]), id, Tell(g), fs[n]);
      } else {
        assert Project(fs, id) == g;
        OtherTells(IdealRun(fs[..n]), id, Tell(g), fs[n]);
      }
    }
  }

  /** How many of one ID's frames carry data while no session of it is open. */
  function Late(g: seq<Frame>): nat {
    if g == [] then 0
    else
      var n := |g| - 1;
      Late(g[..n]) + if g[n].meta.status == KEEP && g[n].data.Some? && !Tell(g[..n]).open then 1 else 0
  }

  /** So the peer's session is told to end as often as it sent data in vain, and its own frames tell how often. */
  lemma {:induction false} ToldToEnd(fs: seq<Frame>, id: nat)
    ensures multiset(Unknown(fs))[id] == Late(Project(fs, id))
    decreases |fs|
  {
    if fs != [] {
      var n := |fs| - 1;
      var f, g := fs[n], Project(fs[..n], id);
      ToldToEnd(fs[..n], id);
      ProjectTells(fs[..n], id);
      assert f.meta.id == id ==> (g + [f])[..|g|] == g;
      assert f.meta.id != id ==> Project(fs, id) == g;
      hide Project, IdealRun, Tell;
    }
  }

  lemma LastTells(outs: seq<seq<Byte>>, p: seq<Byte>, f: Frame)
    requires f.meta.status == KEEP || (f.meta.status == END && Carried(f) == [])
    ensures TellMore(Told(outs + [p], true), f) == Told(outs + [p + Carried(f)], f.meta.status != END)
  {
    hide Carried;
    if f.meta.status == END {
      assert p + [] == p;
    } else {
      assert (outs + [p])[|outs| := p + Carried(f)] == outs + [p + Carried(f)];
    }
  }

  lemma TellSnoc(g: seq<Frame>, f: Frame)
    ensures Tell(g + [f]) == TellMore(Tell(g), f)
  {
    assert (g + [f])[..|g|] == g;
  }

  lemma {:induction false} OneMoreTalk(a: seq<Frame>, talk: seq<Frame>)
    requires talk != [] && OneTalk(talk)
    ensures Tell(a + talk) == Told(Tell(a).outs + [Payload(talk)], talk[|talk| - 1].meta.status != END)
    decreases |talk|
  {
    var n := |talk| - 1;
    var f := talk[n];
    assert talk == talk[..n] + [f];
    assert a + talk == a + talk[..n] + [f];
    assert n > 0 ==> talk[..n][n - 1].meta.status != END;
    assert n > 0 ==> f.meta.status == KEEP || (f.meta.status == END && Carried(f) == []);
    assert n == 0 ==> f.meta.status == NEW;
    OneTalkPrefix(talk, n);
    TellSnoc(a + talk[..n], f);
    PayloadSnoc(talk[..n], f);
    hide OneTalk, Tell, Carried;
    if n == 0 {
      assert a + talk[..0] == a;
      assert Payload(talk[..0]) + Carried(f) == Carried(f);
    } else {
      OneMoreTalk(a, talk[..n]);
      hide Payload, TellMore;
      LastTells(Tell(a).outs, Payload(talk[..n]), f);
    }
  }

  ghost predicate AllTalks(ts: seq<seq<Frame>>) {
    forall n | 0 <= n < |ts| :: ts[n] != [] && OneTalk(ts[n])
  }

  lemma {:induction false} TalksTell(ts: seq<seq<Frame>>)
    requires AllTalks(ts)
    ensures var t := Tell(Flatten(ts));
            && |t.outs| == |ts| && (forall n | 0 <= n < |ts| :: t.outs[n] == Payload(ts[n]))
            && (t.open <==> ts != [] && ts[|ts| - 1][|ts[|ts| - 1]| - 1].meta.status != END)
    decreases |ts|
  {
    if ts != [] {
      var n := |ts| - 1;
      assert ts == ts[..n] + [ts[n]];
      FlattenSnoc(ts[..n], ts[n]);
      TalksTell(ts[..n]);
      OneMoreTalk(Flatten(ts[..n]), ts[n]);
      hide Tell, Payload, OneTalk, Flatten;
    }
  }

  /**
   * The theorem for an ID that is used again: its frames are several talks in a row, each closed or not.
   * Each talk has a pipe of its own, in order, holding a prefix of that talk's bytes; the live session
   * is the last talk's and its pipe holds everything; and all hold everything if nothing was lost.
   */
  lemma TalksGetTheirBytes(s: Server, fs: seq<Frame>, id: nat, ts: seq<seq<Frame>>)
    requires Refines(s, IdealRun(fs)) && Project(fs, id) == Flatten(ts) && AllTalks(ts)
    ensures var ps := Pipes(IdealRun(fs).owners, id);
            && |ps| == |ts|
            && (forall n | 0 <= n < |ts| :: ps[n] < |s.outputs| && s.outputs[ps[n]] <= Payload(ts[n]))
            && (id in s.table.sessions ==>
                  && ts != [] && s.table.sessions[id].output == Some(ps[|ts| - 1])
                  && s.outputs[ps[|ts| - 1]] == Payload(ts[|ts| - 1]))
            && (Complete(s, IdealRun(fs)) ==> forall n | 0 <= n < |ts| :: s.outputs[ps[n]] == Payload(ts[n]))
  {
    ProjectTells(fs, id);
    TalksTell(ts);
    hide IdealRun, Project, Payload, OneTalk, Pipes, Tell, Flatten;
  }
}
