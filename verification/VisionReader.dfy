/** VisionReader.ReadMultiBuffer: when the receiver leaves padding mode and goes direct. */
module VisionReader {
  import opened Bytes
  import opened VisionUnpadding
  import opened VisionRoundTrip
  import VisionFilter

  /** The reader's share of one link: the counters and the two mode flags. */
  datatype Mode = Mode(unpad: Unpad, within: bool, direct: bool)

  /** The decision after a read. It looks at the content and padding counters and at the command,
      not at the header bytes still missing. */
  function Decide(u: Unpad, within: bool): Mode {
    if u.content > 0 || u.padding > 0 || u.current == 0 then Mode(u, true, false)
    else if u.current == 1 then Mode(u, false, false)
    else if u.current == 2 then Mode(u, false, true)
    else Mode(u, within, false)
  }

  /** One read: the buffers that arrived and whether packets are still being filtered. */
  datatype Read = Read(filtering: bool, bufs: seq<seq<Byte>>)

  datatype Delivered = Delivered(mode: Mode, out: seq<Byte>)

  ghost function ReadStep(uuid: seq<Byte>, m: Mode, r: Read): Delivered {
    if Flatten(r.bufs) == [] || m.direct || !(m.within || r.filtering) then Delivered(m, Flatten(r.bufs))
    else
      var u := UnpadAll(uuid, m.unpad, r.bufs);
      Delivered(Decide(u.state, m.within), u.out)
  }

  class VisionReader {
    const uuid: seq<Byte>
    const link: Link
    const traffic: VisionFilter.TrafficState
    var withinPaddingBuffers: bool
    var switchToDirectCopy: bool
    // bytes the outer TLS connection has already taken off the wire
    var input: seq<Byte>
    var rawInput: seq<Byte>

    ghost predicate Valid()
      reads this, link
    {
      |uuid| == UUID_LEN && VisionUnpadding.Valid(link.State())
    }

    ghost function State(): Mode
      reads this, link
    {
      Mode(link.State(), withinPaddingBuffers, switchToDirectCopy)
    }

    constructor (uuid: seq<Byte>, traffic: VisionFilter.TrafficState, input: seq<Byte>, rawInput: seq<Byte>)
      requires |uuid| == UUID_LEN
      ensures Valid() && fresh(link) && this.uuid == uuid && this.traffic == traffic
      ensures State() == Mode(START, true, false)
      ensures this.input == input && this.rawInput == rawInput
    {
      this.uuid, this.traffic := uuid, traffic;
      link := new Link();
      withinPaddingBuffers, switchToDirectCopy := true, false;
      this.input, this.rawInput := input, rawInput;
    }

    /** The bytes of one read go through ReadStep; a switch to direct copy also hands over what the
        outer connection had buffered. */
    method ReadMultiBuffer(buffer: seq<seq<Byte>>, stale: seq<int>)
      returns (out: seq<seq<Byte>>, ghost seen: seq<seq<Byte>>, ghost beyond: seq<int>)
      requires Valid() && |stale| == |buffer|
      requires forall i :: 0 <= i < |buffer| ==> |buffer[i]| <= SIZE
      modifies this, link, traffic
      ensures Valid()
      ensures var d := ReadStep(uuid, old(State()), Read(old(traffic.packetsToFilter) > 0, buffer));
              && State() == d.mode
              && Flatten(out) == d.out + (if d.mode.direct && !old(switchToDirectCopy) then old(input + rawInput) else [])
              && input + rawInput == (if d.mode.direct && !old(switchToDirectCopy) then [] else old(input + rawInput))
              && (seen != [] ==> Flatten(seen) == d.out)
      ensures |seen| == |beyond| && traffic.State() == VisionFilter.FilterAll(old(traffic.State()), seen, beyond)
      ensures seen != [] ==> old(traffic.packetsToFilter) > 0 && !old(switchToDirectCopy)
      ensures old(traffic.packetsToFilter) > 0 && !old(switchToDirectCopy) && Flatten(buffer) != [] && seen == [] ==>
                ReadStep(uuid, old(State()), Read(true, buffer)).out == []
      ensures old(VisionFilter.Coherent(traffic.State())) ==>
                && VisionFilter.Coherent(traffic.State())
                && VisionFilter.NeverUnlearns(old(traffic.State()), traffic.State())
    {
      hide UnpadAll, VisionUnpadding.Valid, VisionFilter.FilterAll, VisionFilter.Coherent, VisionFilter.NeverUnlearns;
      NothingSeen(traffic.State());
      out, seen, beyond := buffer, [], [];
      var empty := IsEmpty(buffer);
      if empty {
        return;
      }
      if switchToDirectCopy {
        return;
      }
      if withinPaddingBuffers || traffic.packetsToFilter > 0 {
        out := UnpadBuffers(buffer);
        if link.remainingContent > 0 || link.remainingPadding > 0 || link.currentCommand == 0 {
          withinPaddingBuffers := true;
        } else if link.currentCommand == 1 {
          withinPaddingBuffers := false;
        } else if link.currentCommand == 2 {
          withinPaddingBuffers := false;
          switchToDirectCopy := true;
        }
      }
      if traffic.packetsToFilter > 0 {
        seen := out;
        beyond := Filter(out, stale);
      }
      if switchToDirectCopy {
        FlattenSnoc(out, input);
        FlattenSnoc(out + [input], rawInput);
        out := out + [input] + [rawInput];
        input, rawInput := [], [];
      }
    }

    /** What the filter learns from the buffers of one read. */
    method Filter(mb: seq<seq<Byte>>, stale: seq<int>) returns (ghost beyond: seq<int>)
      modifies traffic
      ensures |beyond| == |mb| && traffic.State() == VisionFilter.FilterAll(old(traffic.State()), mb, beyond)
      ensures old(VisionFilter.Coherent(traffic.State())) ==>
                && VisionFilter.Coherent(traffic.State())
                && VisionFilter.NeverUnlearns(old(traffic.State()), traffic.State())
    {
      var rest := seq(|mb|, i requires 0 <= i => if i < |stale| then stale[i] else 0);
      beyond := rest;
      hide VisionFilter.FilterOne;
      if VisionFilter.Coherent(traffic.State()) {
        VisionFilter.FilterKeepsCoherent(traffic.State(), mb, rest);
      }
      traffic.XtlsFilterTls(mb, rest);
    }

    /** The loop over the buffers of one read; empty results are dropped. */
    method UnpadBuffers(buffer: seq<seq<Byte>>) returns (mb2: seq<seq<Byte>>)
      requires Valid()
      requires forall i :: 0 <= i < |buffer| ==> |buffer[i]| <= SIZE
      modifies link
      ensures Valid()
      ensures Output(link.State(), Flatten(mb2)) == UnpadAll(uuid, old(link.State()), buffer)
    {
      mb2 := [];
      for i := 0 to |buffer|
        invariant Valid()
        invariant UnpadAll(uuid, old(link.State()), buffer) ==
                  Prepend(Flatten(mb2), UnpadAll(uuid, link.State(), buffer[i..]))
      {
        ghost var s := link.State();
        var newbuffer := link.XtlsUnpadding(uuid, buffer[i]);
        assert buffer[i..][1..] == buffer[i + 1..];
        PrependTwice(Flatten(mb2), newbuffer, UnpadAll(uuid, link.State(), buffer[i + 1..]));
        if |newbuffer| > 0 {
          FlattenSnoc(mb2, newbuffer);
          mb2 := mb2 + [newbuffer];
        } else {
          assert Flatten(mb2) + newbuffer == Flatten(mb2);
        }
      }
    }
  }

  lemma NothingSeen(f: VisionFilter.Flags)
    ensures VisionFilter.FilterAll(f, [], []) == f && VisionFilter.NeverUnlearns(f, f)
  {
  }

  /** MultiBuffer.IsEmpty: no buffer holds a byte. */
  method IsEmpty(mb: seq<seq<Byte>>) returns (empty: bool)
    ensures empty <==> Flatten(mb) == []
  {
    for i := 0 to |mb|
      invariant Flatten(mb) == Flatten(mb[i..])
    {
      if |mb[i]| > 0 {
        return false;
      }
      assert mb[i..][1..] == mb[i + 1..];
    }
    return true;
  }

  // ---------------------------------------------------------------- runs

  /** The decision would leave padding mode although the block has not ended. */
  predicate Premature(u: Unpad) {
    !Initial(u) && u.current != 0 && u.content <= 0 && u.padding <= 0
  }

  /** The mode flags after `done` bytes are what a stream of `end` padded bytes says. */
  predicate Right(m: Mode, end: int, last: Byte, done: int) {
    m.within == (done < end) && m.direct == (done >= end && last == DIRECT)
  }

  ghost function AllBuffers(arrivals: seq<Read>): seq<seq<Byte>> {
    if arrivals == [] then [] else arrivals[0].bufs + AllBuffers(arrivals[1..])
  }

  ghost function ReadAll(uuid: seq<Byte>, m: Mode, arrivals: seq<Read>): Delivered
    decreases arrivals
  {
    if arrivals == [] then Delivered(m, [])
    else
      var d := ReadStep(uuid, m, arrivals[0]);
      var more := ReadAll(uuid, d.mode, arrivals[1..]);
      Delivered(more.mode, d.out + more.out)
  }

  // ---------------------------------------------------------------- handing over

  /** What a run of ReadMultiBuffer calls returns: the read that goes direct also returns `held`, what the
      outer connection had taken off the wire, and later reads come from the connection below. */
  ghost function ReadsOut(uuid: seq<Byte>, m: Mode, held: seq<Byte>, arrivals: seq<Read>): seq<Byte>
    decreases arrivals
  {
    if arrivals == [] then []
    else
      var d := ReadStep(uuid, m, arrivals[0]);
      if d.mode.direct && !m.direct then d.out + (held + ReadAll(uuid, d.mode, arrivals[1..]).out)
      else d.out + ReadsOut(uuid, d.mode, held, arrivals[1..])
  }

  /** The bytes in the order in which they were on the wire: `held` came between that read and the next. */
  ghost function OnWire(uuid: seq<Byte>, m: Mode, held: seq<Byte>, arrivals: seq<Read>): seq<Read>
    decreases arrivals
  {
    if arrivals == [] then []
    else
      var d := ReadStep(uuid, m, arrivals[0]);
      if d.mode.direct && !m.direct then [arrivals[0], Read(false, [held])] + arrivals[1..]
      else [arrivals[0]] + OnWire(uuid, d.mode, held, arrivals[1..])
  }

  /** The handover continues the stream exactly once: it is as if the held bytes had been one more read. */
  lemma {:induction false} HandoverIsARead(uuid: seq<Byte>, m: Mode, held: seq<Byte>, arrivals: seq<Read>)
    ensures ReadsOut(uuid, m, held, arrivals) == ReadAll(uuid, m, OnWire(uuid, m, held, arrivals)).out
    decreases arrivals
  {
    hide ReadStep;
    if arrivals != [] {
      var d := ReadStep(uuid, m, arrivals[0]);
      var wire := OnWire(uuid, m, held, arrivals);
      if d.mode.direct && !m.direct {
        var h := Read(false, [held]);
        assert wire[1..] == [h] + arrivals[1..] && wire[1..][1..] == arrivals[1..];
        DirectRead(uuid, d.mode, held);
        assert ReadAll(uuid, d.mode, wire[1..]).out == held + ReadAll(uuid, d.mode, arrivals[1..]).out;
      } else {
        assert wire[1..] == OnWire(uuid, d.mode, held, arrivals[1..]);
        HandoverIsARead(uuid, d.mode, held, arrivals[1..]);
      }
    }
  }

  lemma DirectRead(uuid: seq<Byte>, m: Mode, bytes: seq<Byte>)
    requires m.direct
    ensures ReadStep(uuid, m, Read(false, [bytes])) == Delivered(m, bytes)
  {
    FlattenOne(bytes);
  }

  /** After every read of the run the flags are right. */
  ghost predicate Tracks(uuid: seq<Byte>, m: Mode, end: int, last: Byte, done: int, arrivals: seq<Read>)
    decreases arrivals
  {
    arrivals == [] ||
    var d := ReadStep(uuid, m, arrivals[0]);
    var next := done + |Flatten(arrivals[0].bufs)|;
    Right(d.mode, end, last, next) && Tracks(uuid, d.mode, end, last, next, arrivals[1..])
  }

  /** m holds what the reference machine holds after `done` bytes. */
  ghost predicate At(s: Unpad, body: seq<Byte>, done: int, m: Mode) {
    0 <= done <= |body| && m.unpad == Run(s, body[..done]).state
  }

  /** No read of the run ends where the decision is premature. */
  ghost predicate NoPrematureEnd(s: Unpad, body: seq<Byte>, done: nat, arrivals: seq<Read>)
    decreases arrivals
  {
    arrivals == [] ||
    var next := done + |Flatten(arrivals[0].bufs)|;
    next <= |body| && !Premature(Run(s, body[..next]).state) && NoPrematureEnd(s, body, next, arrivals[1..])
  }

  /** The decision at offset k is right exactly when it is not premature. */
  lemma RightAfterDecision(s: Unpad, body: seq<Byte>, end: nat, last: Byte, k: nat, within: bool)
    requires Framed(s, body, end, last) && 0 < last <= DIRECT && k <= |body|
    requires 0 <= Run(s, body[..k]).state.current <= DIRECT
    ensures Right(Decide(Run(s, body[..k]).state, within), end, last, k) <==> !Premature(Run(s, body[..k]).state)
  {
    hide Run;
  }

  /** With the right flags, this read is unpadded: it begins before the last padded byte, or the filter is
      still at work and the reader has not gone direct. */
  predicate Unpads(done: int, end: int, last: Byte, r: Read) {
    done < end || (r.filtering && last != DIRECT)
  }

  /** No buffer of a read that is unpadded opens with the UUID past the last padded byte. */
  ghost predicate NoReadMark(uuid: seq<Byte>, done: nat, arrivals: seq<Read>, end: nat, last: Byte)
    decreases arrivals
  {
    arrivals == [] ||
    (&& (Unpads(done, end, last, arrivals[0]) ==> NoMarkFrom(uuid, done, arrivals[0].bufs, end))
     && NoReadMark(uuid, done + |Flatten(arrivals[0].bufs)|, arrivals[1..], end, last))
  }

  /** One read from a right mode: it delivers what the reference machine delivers, and the flags
      are right afterwards exactly when it does not end prematurely. */
  lemma ReadStepExact(uuid: seq<Byte>, s: Unpad, body: seq<Byte>, end: nat, last: Byte, done: nat, m: Mode, r: Read)
    requires Framed(s, body, end, last) && 0 < last <= DIRECT
    requires At(s, body, done, m) && Flatten(r.bufs) <= body[done..]
    requires Right(m, end, last, done) && !Premature(m.unpad)
    requires Unpads(done, end, last, r) ==> NoMarkFrom(uuid, done, r.bufs, end)
    requires 0 <= Run(s, body[..done + |Flatten(r.bufs)|]).state.current <= DIRECT
    ensures var next, d := done + |Flatten(r.bufs)|, ReadStep(uuid, m, r);
            && At(s, body, next, d.mode)
            && Run(s, body[..next]).out == Run(s, body[..done]).out + d.out
            && (Right(d.mode, end, last, next) <==> !Premature(d.mode.unpad))
  {
    hide Run, UnpadAll, NoMarkFrom, Clean;
    var bytes := Flatten(r.bufs);
    var next := done + |bytes|;
    assert body[..next] == body[..done] + bytes;
    RunConcat(s, body[..done], bytes);
    if bytes != [] && !m.direct && (m.within || r.filtering) {
      assert ReadStep(uuid, m, r) == Delivered(Decide(Run(m.unpad, bytes).state, m.within), Run(m.unpad, bytes).out) by {
        RunValid(s, body[..done]);
        CleanIsOffsets(uuid, s, body, end, last, done, r.bufs);
        CutIndependence(uuid, m.unpad, r.bufs);
      }
      RightAfterDecision(s, body, end, last, next, m.within);
    } else if done >= end {
      RunInitial(m.unpad, bytes);
    }
  }

  /** No command other than Continue, End and Direct ever shows. */
  ghost predicate KnownCommands(s: Unpad, body: seq<Byte>) {
    forall k :: 0 <= k <= |body| ==> 0 <= Run(s, body[..k]).state.current <= DIRECT
  }

  /** A read that meets a mark loses bytes. */
  lemma MarkedReadLoses(uuid: seq<Byte>, s: Unpad, body: seq<Byte>, end: nat, last: Byte, done: nat, m: Mode, r: Read)
    requires Framed(s, body, end, last) && 0 < last <= DIRECT
    requires At(s, body, done, m) && Flatten(r.bufs) <= body[done..]
    requires Right(m, end, last, done) && Unpads(done, end, last, r) && !NoMarkFrom(uuid, done, r.bufs, end)
    ensures var next, d := done + |Flatten(r.bufs)|, ReadStep(uuid, m, r);
            && end <= next <= |body| && VisionUnpadding.Valid(d.mode.unpad)
            && |Run(s, body[..done]).out| + |d.out| < |Run(s, body[..next]).out|
  {
    hide Run, UnpadAll, NoMarkFrom, Clean;
    var bytes := Flatten(r.bufs);
    var next := done + |bytes|;
    MarkPastEnd(uuid, done, r.bufs, end);
    assert body[..next] == body[..done] + bytes;
    RunConcat(s, body[..done], bytes);
    RunValid(s, body[..done]);
    CleanIsOffsets(uuid, s, body, end, last, done, r.bufs);
    CutIndependence(uuid, m.unpad, r.bufs);
    UnpadAllBounded(uuid, m.unpad, r.bufs);
  }

  /** Whatever its mode, a reader returns no more bytes than it reads. */
  lemma {:induction false} ReadAllBounded(uuid: seq<Byte>, m: Mode, arrivals: seq<Read>)
    requires VisionUnpadding.Valid(m.unpad)
    ensures |ReadAll(uuid, m, arrivals).out| <= |Flatten(AllBuffers(arrivals))|
    decreases arrivals
  {
    hide UnpadAll;
    if arrivals != [] {
      FlattenConcat(arrivals[0].bufs, AllBuffers(arrivals[1..]));
      UnpadAllBounded(uuid, m.unpad, arrivals[0].bufs);
      ReadAllBounded(uuid, ReadStep(uuid, m, arrivals[0]).mode, arrivals[1..]);
    }
  }

  /** Past the last padded byte the machine passes everything on. */
  lemma RawRest(s: Unpad, body: seq<Byte>, end: nat, last: Byte, next: nat, more: seq<Byte>)
    requires Framed(s, body, end, last) && end <= next <= |body| && more <= body[next..]
    ensures next + |more| <= |body| && body[..next + |more|] == body[..next] + more
    ensures Run(s, body[..next + |more|]).out == Run(s, body[..next]).out + more
  {
    hide Run;
    assert body[next..][..|more|] == more;
    assert body[..next + |more|] == body[..next] + more;
    RunConcat(s, body[..next], more);
    RunInitial(Run(s, body[..next]).state, more);
  }

  /** Every run of reads after the first, over any part of the stream. */
  lemma {:induction false} ReaderRun(uuid: seq<Byte>, s: Unpad, body: seq<Byte>, end: nat, last: Byte,
                                     done: nat, m: Mode, arrivals: seq<Read>)
    requires Framed(s, body, end, last) && 0 < last <= DIRECT && KnownCommands(s, body)
    requires At(s, body, done, m) && Flatten(AllBuffers(arrivals)) <= body[done..]
    requires Right(m, end, last, done) && !Premature(m.unpad)
    ensures NoReadMark(uuid, done, arrivals, end, last) ==>
              (Tracks(uuid, m, end, last, done, arrivals) <==> NoPrematureEnd(s, body, done, arrivals))
    ensures var stop := done + |Flatten(AllBuffers(arrivals))|;
            && stop <= |body|
            && (NoPrematureEnd(s, body, done, arrivals) && NoReadMark(uuid, done, arrivals, end, last) ==>
                  Run(s, body[..stop]).out == Run(s, body[..done]).out + ReadAll(uuid, m, arrivals).out)
            && (NoPrematureEnd(s, body, done, arrivals) && !NoReadMark(uuid, done, arrivals, end, last) ==>
                  |Run(s, body[..done]).out| + |ReadAll(uuid, m, arrivals).out| < |Run(s, body[..stop]).out|)
    decreases arrivals
  {
    hide Run, UnpadAll, NoMarkFrom, ReadStep, Framed;
    if arrivals != [] {
      var bufs, later := arrivals[0].bufs, AllBuffers(arrivals[1..]);
      var next := done + |Flatten(bufs)|;
      FlattenConcat(bufs, later);
      PieceSplit(body, done, Flatten(bufs), Flatten(later));
      var d := ReadStep(uuid, m, arrivals[0]);
      if Unpads(done, end, last, arrivals[0]) && !NoMarkFrom(uuid, done, bufs, end) {
        MarkedReadLoses(uuid, s, body, end, last, done, m, arrivals[0]);
        ReadAllBounded(uuid, d.mode, arrivals[1..]);
        RawRest(s, body, end, last, next, Flatten(later));
      } else {
        ReadStepExact(uuid, s, body, end, last, done, m, arrivals[0]);
        if !Premature(d.mode.unpad) {
          ReaderRun(uuid, s, body, end, last, next, d.mode, arrivals[1..]);
          Regroup(Run(s, body[..done]).out, d.out, ReadAll(uuid, d.mode, arrivals[1..]).out);
        }
      }
    }
  }

  /** No buffer that is unpadded, after the one that brings the UUID, opens with it past the last padded byte. */
  ghost predicate SeenClear(uuid: seq<Byte>, arrivals: seq<Read>, end: nat, last: Byte)
    requires arrivals != [] && arrivals[0].bufs != [] && |arrivals[0].bufs[0]| >= 21
  {
    && NoRawMark(uuid, arrivals[0].bufs, UUID_LEN + end)
    && |Flatten(arrivals[0].bufs)| >= UUID_LEN
    && NoReadMark(uuid, |Flatten(arrivals[0].bufs)| - UUID_LEN, arrivals[1..], end, last)
  }

  /** A whole connection, or its beginning: the first read brings the UUID and the first header. */
  lemma ConnectionRun(uuid: seq<Byte>, body: seq<Byte>, end: nat, last: Byte, arrivals: seq<Read>)
    requires |uuid| == UUID_LEN && Framed(START.(command := 5), body, end, last) && 0 < last <= DIRECT
    requires KnownCommands(START.(command := 5), body)
    requires Flatten(AllBuffers(arrivals)) <= uuid + body
    requires arrivals != [] && arrivals[0].bufs != [] && |arrivals[0].bufs[0]| >= 21
    ensures var s, k, m := START.(command := 5), |Flatten(arrivals[0].bufs)| - UUID_LEN, Mode(START, true, false);
            var stop := |Flatten(AllBuffers(arrivals))| - UUID_LEN;
            var fine := 0 <= k <= |body| && !Premature(Run(s, body[..k]).state) && NoPrematureEnd(s, body, k, arrivals[1..]);
            var clear := SeenClear(uuid, arrivals, end, last);
            && 0 <= k <= stop <= |body|
            && (clear ==> (Tracks(uuid, m, end, last, -UUID_LEN, arrivals) <==> fine))
            && (fine && clear ==> ReadAll(uuid, m, arrivals).out == Run(s, body[..stop]).out)
            && (fine && !clear ==> |ReadAll(uuid, m, arrivals).out| < |Run(s, body[..stop]).out|)
  {
    hide Run, NoMarkFrom, ReadStep, Framed, NoPrematureEnd, Premature, Flatten, Right;
    var s, later := START.(command := 5), AllBuffers(arrivals[1..]);
    var k := |Flatten(arrivals[0].bufs)| - UUID_LEN;
    FlattenConcat(arrivals[0].bufs, later);
    FirstRead(uuid, body, end, last, arrivals[0], Flatten(later));
    var d := ReadStep(uuid, Mode(START, true, false), arrivals[0]);
    if !NoRawMark(uuid, arrivals[0].bufs, UUID_LEN + end) {
      ReadAllBounded(uuid, d.mode, arrivals[1..]);
      RawRest(s, body, end, last, k, Flatten(later));
    } else if !Premature(d.mode.unpad) {
      ReaderRun(uuid, s, body, end, last, k, d.mode, arrivals[1..]);
    }
  }

  /** The read that brings the UUID. */
  lemma FirstRead(uuid: seq<Byte>, body: seq<Byte>, end: nat, last: Byte, r: Read, later: seq<Byte>)
    requires |uuid| == UUID_LEN && Framed(START.(command := 5), body, end, last) && 0 < last <= DIRECT
    requires KnownCommands(START.(command := 5), body)
    requires Flatten(r.bufs) + later <= uuid + body
    requires r.bufs != [] && |r.bufs[0]| >= 21
    ensures var s, k, d := START.(command := 5), |Flatten(r.bufs)| - UUID_LEN, ReadStep(uuid, Mode(START, true, false), r);
            && 0 <= k <= |body| && later <= body[k..]
            && (NoRawMark(uuid, r.bufs, UUID_LEN + end) ==>
                  && At(s, body, k, d.mode) && d.out == Run(s, body[..k]).out
                  && (Right(d.mode, end, last, k) <==> !Premature(d.mode.unpad)))
            && (!NoRawMark(uuid, r.bufs, UUID_LEN + end) ==>
                  && end <= k && VisionUnpadding.Valid(d.mode.unpad) && |d.out| < |Run(s, body[..k]).out|)
  {
    hide Run, NoMarkFrom, UnpadAll, After;
    var s, k := START.(command := 5), |Flatten(r.bufs)| - UUID_LEN;
    assert r.bufs[0] <= Flatten(r.bufs);
    assert Flatten(r.bufs) <= uuid + body;
    CutOfFramed(uuid, s, body, end, last, r.bufs);
    DropUuid(uuid, body, Flatten(r.bufs), later);
    UnpadAllBounded(uuid, START, r.bufs);
    if NoRawMark(uuid, r.bufs, UUID_LEN + end) {
      RightAfterDecision(s, body, end, last, k, true);
    } else {
      MarkPastEnd(uuid, |r.bufs[0]|, r.bufs[1..], UUID_LEN + end);
    }
  }

  lemma DropUuid(uuid: seq<Byte>, body: seq<Byte>, a: seq<Byte>, b: seq<Byte>)
    requires |uuid| == UUID_LEN <= |a| && a + b <= uuid + body
    ensures |a| - UUID_LEN <= |body| && body[..|a| - UUID_LEN] == a[UUID_LEN..] && b <= body[|a| - UUID_LEN..]
  {
    assert (uuid + body)[..|a + b|] == a + b;
    assert (uuid + body)[..|a|] == a;
    assert (uuid + body)[|a|..|a| + |b|] == b;
    assert (uuid + body)[|a|..] == body[|a| - UUID_LEN..];
  }

  // ---------------------------------------------------------------- where reads may end

  /** The read ends k bytes into block b, inside a terminating header that shows no length yet. */
  ghost predicate AmbiguousIn(b: Block, k: int)
    requires Fits(b)
  {
    b.command != CONTINUE && 1 <= k < 5 && forall j :: 1 <= j < k ==> Header(b)[j] == 0
  }

  /** The read ends, k bytes after the UUID, inside the header of a terminating block, all its length
      bytes so far being zero. */
  ghost predicate Ambiguous(blocks: seq<Block>, k: int)
    requires AllFit(blocks)
    decreases blocks
  {
    blocks != [] &&
    var n := |BlockBytes(blocks[0])|;
    if k < n then AmbiguousIn(blocks[0], k) else Ambiguous(blocks[1..], k - n)
  }

  /** No read of the run ends at an ambiguous offset. */
  ghost predicate NoAmbiguousEnd(blocks: seq<Block>, done: int, arrivals: seq<Read>)
    requires AllFit(blocks)
    decreases arrivals
  {
    arrivals == [] ||
    var next := done + |Flatten(arrivals[0].bufs)|;
    !Ambiguous(blocks, next) && NoAmbiguousEnd(blocks, next, arrivals[1..])
  }

  /** The state that meets the next header. */
  predicate AtHeader(s: Unpad) {
    VisionUnpadding.Valid(s) && s.command == 5 && s.content <= 0 && s.padding <= 0 && s.current == 0
  }

  lemma HeaderPrefix(s: Unpad, b: Block, k: nat)
    requires AtHeader(s) && Fits(b) && 1 <= k < 5
    ensures var u := Run(s, Header(b)[..k]).state;
            && u.current == b.command && u.command == 5 - k
            && ((u.content > 0 || u.padding > 0) <==> exists j :: 1 <= j < k && Header(b)[j] != 0)
  {
    hide Run;
    var h := Header(b);
    var s1 := HeaderByte(s, h[0]);
    var s2 := HeaderByte(s1, h[1]);
    var s3 := HeaderByte(s2, h[2]);
    RunNil(s1);
    RunNil(s2);
    RunNil(s3);
    RunNil(HeaderByte(s3, h[3]));
    RunHeader(s, h[..k]);
    if k == 1 {
      assert h[..k][1..] == [];
    } else {
      RunHeader(s1, h[..k][1..]);
      if k == 2 {
        assert h[..k][1..][1..] == [];
      } else {
        RunHeader(s2, h[..k][1..][1..]);
        if k == 3 {
          assert h[..k][1..][1..][1..] == [];
        } else {
          RunHeader(s3, h[..k][1..][1..][1..]);
          assert h[..k][1..][1..][1..][1..] == [];
        }
      }
    }
  }

  lemma PrematureInBlock(s: Unpad, b: Block, k: nat)
    requires AtHeader(s) && Fits(b) && k < |BlockBytes(b)|
    ensures Premature(Run(s, BlockBytes(b)[..k]).state) <==> AmbiguousIn(b, k)
    ensures Run(s, BlockBytes(b)[..k]).state.current in {0, b.command}
  {
    hide Run, PutUint16;
    if k >= 5 {
      var part := (b.content + b.padding)[..k - 5];
      assert BlockBytes(b)[..k] == Header(b) + part;
      RunFullHeader(s, b, part);
      BodyBusy(Unpad(0, |b.content|, |b.padding|, b.command), part);
      BodyCommand(Unpad(0, |b.content|, |b.padding|, b.command), part);
    } else if k >= 1 {
      assert BlockBytes(b)[..k] == Header(b)[..k];
      HeaderPrefix(s, b, k);
    } else {
      RunNil(s);
    }
  }

  lemma {:induction false} BodyCommand(s: Unpad, bs: seq<Byte>)
    requires s.command == 0 && s.content >= 0 && s.padding >= 0 && |bs| < s.content + s.padding
    ensures Run(s, bs).state.current == s.current
    decreases bs
  {
    if bs != [] {
      BodyCommand(Step(s, bs[0]).state, bs[1..]);
    }
  }

  /** Premature offsets are the ambiguous ones, and only the blocks' own commands show. */
  lemma {:induction false} PrematureExactly(s: Unpad, blocks: seq<Block>, tail: seq<Byte>, k: nat)
    requires AtHeader(s) && Terminated(blocks) && LastCommand(blocks) <= DIRECT
    requires k <= |BlocksBytes(blocks) + tail|
    ensures var u := Run(s, (BlocksBytes(blocks) + tail)[..k]).state;
            (Premature(u) <==> Ambiguous(blocks, k)) && 0 <= u.current <= DIRECT
    decreases blocks
  {
    hide Run, PutUint16, Header;
    var b, more, n := blocks[0], blocks[1..], |BlockBytes(blocks[0])|;
    if k < n {
      assert (BlocksBytes(blocks) + tail)[..k] == BlockBytes(b)[..k];
      PrematureInBlock(s, b, k);
    } else {
      assert (BlocksBytes(blocks) + tail)[..k] == BlockBytes(b) + (BlocksBytes(more) + tail)[..k - n];
      RunBlock(s, b, (BlocksBytes(more) + tail)[..k - n]);
      if more == [] {
        RunInitial(After(b.command), (BlocksBytes(more) + tail)[..k - n]);
      } else {
        PrematureExactly(After(b.command), more, tail, k - n);
      }
    }
  }

  lemma {:induction false} PrematureEnds(s: Unpad, blocks: seq<Block>, tail: seq<Byte>, done: nat, arrivals: seq<Read>)
    requires AtHeader(s) && Terminated(blocks) && LastCommand(blocks) <= DIRECT
    requires done + |Flatten(AllBuffers(arrivals))| <= |BlocksBytes(blocks) + tail|
    ensures NoPrematureEnd(s, BlocksBytes(blocks) + tail, done, arrivals) <==> NoAmbiguousEnd(blocks, done, arrivals)
    decreases arrivals
  {
    hide Run, BlocksBytes, Ambiguous;
    if arrivals != [] {
      FlattenConcat(arrivals[0].bufs, AllBuffers(arrivals[1..]));
      var next := done + |Flatten(arrivals[0].bufs)|;
      PrematureExactly(s, blocks, tail, next);
      PrematureEnds(s, blocks, tail, next, arrivals[1..]);
    }
  }

  lemma BlocksKnown(s: Unpad, blocks: seq<Block>, tail: seq<Byte>)
    requires AtHeader(s) && Terminated(blocks) && LastCommand(blocks) <= DIRECT
    ensures KnownCommands(s, BlocksBytes(blocks) + tail)
  {
    forall k | 0 <= k <= |BlocksBytes(blocks) + tail|
      ensures 0 <= Run(s, (BlocksBytes(blocks) + tail)[..k]).state.current <= DIRECT
    {
      PrematureExactly(s, blocks, tail, k);
    }
  }

  /** What a reader has delivered of a stream of which perhaps only a part has arrived. */
  lemma ReaderSoFar(uuid: seq<Byte>, blocks: seq<Block>, tail: seq<Byte>, arrivals: seq<Read>)
    requires |uuid| == UUID_LEN && Terminated(blocks) && LastCommand(blocks) <= DIRECT
    requires Flatten(AllBuffers(arrivals)) <= uuid + (BlocksBytes(blocks) + tail)
    requires arrivals != [] && arrivals[0].bufs != [] && |arrivals[0].bufs[0]| >= 21
    ensures var s, body, stop := START.(command := 5), BlocksBytes(blocks) + tail, |Flatten(AllBuffers(arrivals))| - UUID_LEN;
            var out := ReadAll(uuid, Mode(START, true, false), arrivals).out;
            var clear := SeenClear(uuid, arrivals, |BlocksBytes(blocks)|, LastCommand(blocks));
            && 0 <= stop <= |body|
            && (clear ==>
                  (Tracks(uuid, Mode(START, true, false), |BlocksBytes(blocks)|, LastCommand(blocks), -UUID_LEN, arrivals) <==>
                   NoAmbiguousEnd(blocks, -UUID_LEN, arrivals)))
            && (NoAmbiguousEnd(blocks, -UUID_LEN, arrivals) && clear ==> out == Run(s, body[..stop]).out)
            && (NoAmbiguousEnd(blocks, -UUID_LEN, arrivals) && !clear ==> |out| < |Run(s, body[..stop]).out|)
            && Run(s, body[..stop]).out <= Contents(blocks) + tail
            && (stop == |body| ==> Run(s, body[..stop]).out == Contents(blocks) + tail)
  {
    hide Run, BlocksBytes, ReadStep, Contents, Ambiguous, SeenClear;
    var s, body := START.(command := 5), BlocksBytes(blocks) + tail;
    var k, stop := |Flatten(arrivals[0].bufs)| - UUID_LEN, |Flatten(AllBuffers(arrivals))| - UUID_LEN;
    RunBlocks(s, blocks, tail);
    BlocksFramed(s, blocks, tail);
    BlocksKnown(s, blocks, tail);
    ConnectionRun(uuid, body, |BlocksBytes(blocks)|, LastCommand(blocks), arrivals);
    FlattenConcat(arrivals[0].bufs, AllBuffers(arrivals[1..]));
    PrematureExactly(s, blocks, tail, k);
    PrematureEnds(s, blocks, tail, k, arrivals[1..]);
    RunConcat(s, body[..stop], body[stop..]);
    assert body == body[..stop] + body[stop..];
    assert stop == |body| ==> body[..stop] == body;
  }

  /** Switch agreement, receiver side. From the start of a connection, over every sequence of reads:
      the reader leaves padding mode, and goes direct, at the very read that completes the terminating
      block, if and only if no read ends at an ambiguous offset; and then it has delivered the contents and
      the raw bytes and nothing else, if and only if no buffer that it unpads opens with the UUID again.
      Offsets count the bytes after the UUID. */
  lemma ReaderFollowsWriter(uuid: seq<Byte>, blocks: seq<Block>, tail: seq<Byte>, arrivals: seq<Read>)
    requires |uuid| == UUID_LEN && Terminated(blocks) && LastCommand(blocks) <= DIRECT
    requires Flatten(AllBuffers(arrivals)) == uuid + (BlocksBytes(blocks) + tail)
    requires arrivals != [] && arrivals[0].bufs != [] && |arrivals[0].bufs[0]| >= 21
    ensures SeenClear(uuid, arrivals, |BlocksBytes(blocks)|, LastCommand(blocks)) ==>
              (Tracks(uuid, Mode(START, true, false), |BlocksBytes(blocks)|, LastCommand(blocks), -UUID_LEN, arrivals) <==>
               NoAmbiguousEnd(blocks, -UUID_LEN, arrivals))
    ensures NoAmbiguousEnd(blocks, -UUID_LEN, arrivals) ==>
              (ReadAll(uuid, Mode(START, true, false), arrivals).out == Contents(blocks) + tail <==>
               SeenClear(uuid, arrivals, |BlocksBytes(blocks)|, LastCommand(blocks)))
  {
    hide Run, BlocksBytes, ReadStep, Contents, Ambiguous, SeenClear;
    ReaderSoFar(uuid, blocks, tail, arrivals);
  }

  /** The code does meet an ambiguous offset: a read that stops after the command byte of a Direct
      block sends the reader into direct copy with the whole block still to come. */
  lemma EarlyDirectExample(uuid: seq<Byte>)
    requires |uuid| == UUID_LEN
    ensures var first := Block(CONTINUE, [7], []);
            ReadStep(uuid, Mode(START, true, false), Read(false, [uuid + (BlockBytes(first) + [DIRECT])])).mode.direct
  {
    var first, s := Block(CONTINUE, [7], []), START.(command := 5);
    var b := uuid + (BlockBytes(first) + [DIRECT]);
    assert b[..UUID_LEN] == uuid && b[UUID_LEN..] == BlockBytes(first) + [DIRECT];
    RunBlock(s, first, [DIRECT]);
    RunHeader(After(CONTINUE), [DIRECT]);
    assert [DIRECT][1..] == [];
    FlattenOne(b);
    assert [b][1..] == [];
    assert |b| == 23 && Marked(uuid, b);
    assert Unpadding(uuid, START, b).state == Unpad(4, 0, 0, DIRECT);
    assert UnpadAll(uuid, START, [b]).state == Unpad(4, 0, 0, DIRECT);
  }
}
