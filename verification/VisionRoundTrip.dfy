/** XtlsUnpadding undoes XtlsPadding for every cut of the stream into buffers. */
module VisionRoundTrip {
  import opened Bytes
  import opened VisionUnpadding

  /** The counters of NewTrafficState. */
  const START := Unpad(-1, -1, -1, 0)

  // ---------------------------------------------------------------- one block

  /** The state the machine is in after a block with command c. */
  function After(c: Byte): Unpad {
    if c == CONTINUE then Unpad(5, 0, 0, 0) else Unpad(-1, -1, -1, c)
  }

  lemma RunFullHeader(s: Unpad, b: Block, rest: seq<Byte>)
    requires Valid(s) && s.command == 5 && Fits(b)
    ensures Run(s, Header(b) + rest) == Run(Settle(Unpad(0, |b.content|, |b.padding|, b.command)), rest)
  {
    var c, p := |b.content|, |b.padding|;
    var bs := Header(b) + rest;
    var s1 := HeaderByte(s, bs[0]);
    var s2 := HeaderByte(s1, bs[1]);
    var s3 := HeaderByte(s2, bs[2]);
    var s4 := HeaderByte(s3, bs[3]);
    RunHeader(s, bs);
    RunHeader(s1, bs[1..]);
    RunHeader(s2, bs[1..][1..]);
    RunHeader(s3, bs[1..][1..][1..]);
    RunHeader(s4, bs[1..][1..][1..][1..]);
    assert bs[1..][1..][1..][1..][1..] == rest;
    assert s4 == Unpad(1, c, (p / 256) * 256, b.command);
  }

  lemma RunBlock(s: Unpad, b: Block, rest: seq<Byte>)
    requires Valid(s) && s.command == 5 && Fits(b)
    ensures Run(s, BlockBytes(b) + rest) == Prepend(b.content, Run(After(b.command), rest))
  {
    hide Run, PutUint16;
    var c, p := |b.content|, |b.padding|;
    var t := Unpad(0, c, p, b.command);
    var body := b.content + (b.padding + rest);
    assert BlockBytes(b) + rest == Header(b) + body;
    RunFullHeader(s, b, body);
    assert body[c..] == b.padding + rest && body[..c] == b.content;
    assert (b.padding + rest)[p..] == rest;
    if c > 0 {
      RunContent(t, body, c);
    } else {
      assert body == b.padding + rest && b.content == [];
    }
    if p > 0 {
      RunPadding(t.(content := 0), b.padding + rest, p);
    } else {
      assert b.padding + rest == rest;
    }
  }

  lemma {:induction false} HeaderBusy(s: Unpad, bs: seq<Byte>)
    requires Valid(s) && |bs| < s.command
    ensures Run(s, bs).state.command == s.command - |bs|
    decreases bs
  {
    if bs != [] {
      RunHeader(s, bs);
      HeaderBusy(HeaderByte(s, bs[0]), bs[1..]);
    }
  }

  lemma {:induction false} BodyBusy(s: Unpad, bs: seq<Byte>)
    requires s.command == 0 && s.content >= 0 && s.padding >= 0 && |bs| < s.content + s.padding
    ensures Run(s, bs).state.command == 0
    ensures Run(s, bs).state.content + Run(s, bs).state.padding == s.content + s.padding - |bs|
    decreases bs
  {
    if bs != [] {
      BodyBusy(Step(s, bs[0]).state, bs[1..]);
    }
  }

  /** Strictly inside a block the machine is never back in its initial state. */
  lemma BlockBusy(s: Unpad, b: Block, k: nat)
    requires Valid(s) && s.command == 5 && Fits(b) && k < |BlockBytes(b)|
    ensures !Initial(Run(s, BlockBytes(b)[..k]).state)
  {
    if k < 5 {
      HeaderBusy(s, BlockBytes(b)[..k]);
    } else {
      var part := (b.content + b.padding)[..k - 5];
      assert BlockBytes(b)[..k] == Header(b) + part;
      RunFullHeader(s, b, part);
      BodyBusy(Unpad(0, |b.content|, |b.padding|, b.command), part);
    }
  }

  // ---------------------------------------------------------------- a whole stream

  function LastCommand(blocks: seq<Block>): Byte
    requires blocks != []
  {
    blocks[|blocks| - 1].command
  }

  /** The reference machine on a whole padded stream followed by raw bytes. */
  lemma {:induction false} RunBlocks(s: Unpad, blocks: seq<Block>, tail: seq<Byte>)
    requires Valid(s) && s.command == 5 && Terminated(blocks)
    ensures Run(s, BlocksBytes(blocks) + tail) ==
            Output(After(LastCommand(blocks)), Contents(blocks) + tail)
    decreases blocks
  {
    var b, more := blocks[0], blocks[1..];
    assert BlocksBytes(blocks) + tail == BlockBytes(b) + (BlocksBytes(more) + tail);
    RunBlock(s, b, BlocksBytes(more) + tail);
    if more == [] {
      RunInitial(After(b.command), tail);
      assert BlocksBytes(more) + tail == tail;
      assert Contents(blocks) == b.content;
    } else {
      RunBlocks(After(b.command), more, tail);
      assert Contents(blocks) + tail == b.content + (Contents(more) + tail);
    }
  }

  /** The machine is back in its initial state exactly when the last padded byte has been read. */
  lemma {:induction false} InitialExactly(s: Unpad, blocks: seq<Block>, tail: seq<Byte>, k: nat)
    requires Valid(s) && s.command == 5 && Terminated(blocks)
    requires k <= |BlocksBytes(blocks)| + |tail|
    ensures Initial(Run(s, (BlocksBytes(blocks) + tail)[..k]).state) <==> k >= |BlocksBytes(blocks)|
    ensures k >= |BlocksBytes(blocks)| ==>
              Run(s, (BlocksBytes(blocks) + tail)[..k]).state == After(LastCommand(blocks))
    decreases blocks
  {
    var all := BlocksBytes(blocks);
    if k >= |all| {
      assert (all + tail)[..k] == all + tail[..k - |all|];
      RunBlocks(s, blocks, tail[..k - |all|]);
    } else {
      var b, more := blocks[0], blocks[1..];
      var n := |BlockBytes(b)|;
      if k < n {
        assert (all + tail)[..k] == BlockBytes(b)[..k];
        BlockBusy(s, b, k);
      } else {
        assert (all + tail)[..k] == BlockBytes(b) + (BlocksBytes(more) + tail)[..k - n];
        RunBlock(s, b, (BlocksBytes(more) + tail)[..k - n]);
        InitialExactly(After(b.command), more, tail, k - n);
      }
    }
  }

  // ---------------------------------------------------------------- any cut

  /** XtlsUnpadding over consecutive buffers. */
  ghost function UnpadAll(uuid: seq<Byte>, s: Unpad, bufs: seq<seq<Byte>>): Output
    decreases bufs
  {
    if bufs == [] then Output(s, [])
    else
      var r := Unpadding(uuid, s, bufs[0]);
      Prepend(r.out, UnpadAll(uuid, r.state, bufs[1..]))
  }

  /** No buffer that meets the initial state opens with the user's UUID. */
  ghost predicate Clean(uuid: seq<Byte>, s: Unpad, bufs: seq<seq<Byte>>)
    decreases bufs
  {
    bufs == [] ||
    (&& (Initial(s) ==> !Marked(uuid, bufs[0]))
     && Clean(uuid, Run(s, bufs[0]).state, bufs[1..]))
  }

  lemma {:induction false} UnpadAllBounded(uuid: seq<Byte>, s: Unpad, bufs: seq<seq<Byte>>)
    requires Valid(s)
    ensures |UnpadAll(uuid, s, bufs).out| <= |Flatten(bufs)| && Valid(UnpadAll(uuid, s, bufs).state)
    decreases bufs
  {
    if bufs != [] {
      RunValid(s, bufs[0]);
      if Initial(s) && Marked(uuid, bufs[0]) {
        RunValid(s.(command := 5), bufs[0][UUID_LEN..]);
      }
      UnpadAllBounded(uuid, Unpadding(uuid, s, bufs[0]).state, bufs[1..]);
    }
  }

  /** On a clean cut the buffer boundaries do not matter; on any other, bytes are lost. */
  lemma {:induction false} CutIndependence(uuid: seq<Byte>, s: Unpad, bufs: seq<seq<Byte>>)
    requires Valid(s)
    ensures Clean(uuid, s, bufs) ==> UnpadAll(uuid, s, bufs) == Run(s, Flatten(bufs))
    ensures !Clean(uuid, s, bufs) ==> |UnpadAll(uuid, s, bufs).out| < |Run(s, Flatten(bufs)).out|
    decreases bufs
  {
    if bufs != [] {
      var r := Run(s, bufs[0]);
      RunValid(s, bufs[0]);
      RunConcat(s, bufs[0], Flatten(bufs[1..]));
      if Initial(s) && Marked(uuid, bufs[0]) {
        RunInitial(s, Flatten(bufs));
        RunValid(s.(command := 5), bufs[0][UUID_LEN..]);
        UnpadAllBounded(uuid, Unpadding(uuid, s, bufs[0]).state, bufs[1..]);
      } else {
        CutIndependence(uuid, r.state, bufs[1..]);
      }
    }
  }

  /** bufs follow `done` earlier bytes: none of them that starts at or past offset `end` opens with
      the UUID. */
  ghost predicate NoMarkFrom(uuid: seq<Byte>, done: nat, bufs: seq<seq<Byte>>, end: nat)
    decreases bufs
  {
    bufs == [] ||
    ((done >= end ==> !Marked(uuid, bufs[0])) && NoMarkFrom(uuid, done + |bufs[0]|, bufs[1..], end))
  }

  /** No buffer after the first that starts at or past offset `end` opens with the UUID. */
  ghost predicate NoRawMark(uuid: seq<Byte>, bufs: seq<seq<Byte>>, end: nat)
    requires bufs != []
  {
    NoMarkFrom(uuid, |bufs[0]|, bufs[1..], end)
  }

  /** A buffer that opens with the UUID past `end` is not empty, and neither is what follows it before. */
  lemma {:induction false} MarkPastEnd(uuid: seq<Byte>, done: nat, bufs: seq<seq<Byte>>, end: nat)
    requires !NoMarkFrom(uuid, done, bufs, end)
    ensures done + |Flatten(bufs)| >= end && Flatten(bufs) != []
    decreases bufs
  {
    if done < end || !Marked(uuid, bufs[0]) {
      MarkPastEnd(uuid, done + |bufs[0]|, bufs[1..], end);
    }
  }

  /** Only the distance between the two offsets matters. */
  lemma {:induction false} NoMarkShift(uuid: seq<Byte>, done: nat, bufs: seq<seq<Byte>>, end: nat, n: nat)
    ensures NoMarkFrom(uuid, done + n, bufs, end + n) <==> NoMarkFrom(uuid, done, bufs, end)
    decreases bufs
  {
    if bufs != [] {
      NoMarkShift(uuid, done + |bufs[0]|, bufs[1..], end, n);
    }
  }

  /** What the machine sees in body: `end` padded bytes, the last block with command `last`, then raw
      bytes. It is in its initial state exactly from offset end on. */
  ghost predicate Framed(s: Unpad, body: seq<Byte>, end: nat, last: Byte) {
    && Valid(s) && end <= |body|
    && forall k :: 0 <= k <= |body| ==>
         && (Initial(Run(s, body[..k]).state) <==> k >= end)
         && (k >= end ==> Run(s, body[..k]).state == After(last))
  }

  lemma BlocksFramed(s: Unpad, blocks: seq<Block>, tail: seq<Byte>)
    requires Valid(s) && s.command == 5 && Terminated(blocks)
    ensures Framed(s, BlocksBytes(blocks) + tail, |BlocksBytes(blocks)|, LastCommand(blocks))
  {
    forall k | 0 <= k <= |BlocksBytes(blocks) + tail|
      ensures Initial(Run(s, (BlocksBytes(blocks) + tail)[..k]).state) <==> k >= |BlocksBytes(blocks)|
      ensures k >= |BlocksBytes(blocks)| ==>
                Run(s, (BlocksBytes(blocks) + tail)[..k]).state == After(LastCommand(blocks))
    {
      InitialExactly(s, blocks, tail, k);
    }
  }

  lemma PieceSplit(body: seq<Byte>, done: nat, a: seq<Byte>, b: seq<Byte>)
    requires done <= |body| && a + b <= body[done..]
    ensures done + |a| <= |body| && a <= body[done..] && b <= body[done + |a|..]
    ensures body[..done + |a|] == body[..done] + a
  {
    assert |a + b| <= |body[done..]| && (a + b)[..|a|] == a && (a + b)[|a|..] == b;
    assert body[done..][..|a + b|] == a + b;
    assert body[done..][..|a|] == a;
    assert body[done..][|a|..] == body[done + |a|..];
    assert body[done..][|a|..|a| + |b|] == b;
  }

  /** Cleanness, stated through the machine's states, is a condition on buffer offsets. */
  lemma {:induction false} CleanIsOffsets(uuid: seq<Byte>, s: Unpad, body: seq<Byte>, end: nat, last: Byte,
                                          done: nat, bufs: seq<seq<Byte>>)
    requires Framed(s, body, end, last) && done <= |body| && Flatten(bufs) <= body[done..]
    ensures Clean(uuid, Run(s, body[..done]).state, bufs) <==> NoMarkFrom(uuid, done, bufs, end)
    decreases bufs
  {
    if bufs != [] {
      PieceSplit(body, done, bufs[0], Flatten(bufs[1..]));
      RunConcat(s, body[..done], bufs[0]);
      CleanIsOffsets(uuid, s, body, end, last, done + |bufs[0]|, bufs[1..]);
    }
  }

  /** A first buffer of at least 21 bytes opens the padded stream; then it is the reference machine. */
  lemma OpeningBuffer(uuid: seq<Byte>, bufs: seq<seq<Byte>>, body: seq<Byte>)
    requires |uuid| == UUID_LEN && bufs != [] && |bufs[0]| >= 21
    requires Flatten(bufs) <= uuid + body
    ensures Marked(uuid, bufs[0])
    ensures bufs[0][UUID_LEN..] + Flatten(bufs[1..]) <= body
    ensures Flatten(bufs)[UUID_LEN..] == bufs[0][UUID_LEN..] + Flatten(bufs[1..])
    ensures var s1 := Run(START.(command := 5), bufs[0][UUID_LEN..]).state;
            && Valid(s1)
            && (Clean(uuid, s1, bufs[1..]) ==>
                  UnpadAll(uuid, START, bufs) == Run(START.(command := 5), Flatten(bufs)[UUID_LEN..]))
            && (!Clean(uuid, s1, bufs[1..]) ==>
                  |UnpadAll(uuid, START, bufs).out| < |Run(START.(command := 5), Flatten(bufs)[UUID_LEN..]).out|)
  {
    var s, first, more := START.(command := 5), bufs[0][UUID_LEN..], Flatten(bufs[1..]);
    assert bufs[0][..UUID_LEN] == (bufs[0] + more)[..UUID_LEN] == (uuid + body)[..UUID_LEN] == uuid;
    assert first + more == Flatten(bufs)[UUID_LEN..] <= (uuid + body)[UUID_LEN..] == body;
    RunValid(s, first);
    RunConcat(s, first, more);
    CutIndependence(uuid, Run(s, first).state, bufs[1..]);
  }

  /** Round trip over every cut: the contents and the raw tail come out, in order and complete,
      exactly when no buffer that lies wholly in the raw tail opens with the UUID again. */
  lemma UnpaddingInvertsPadding(uuid: seq<Byte>, blocks: seq<Block>, tail: seq<Byte>, bufs: seq<seq<Byte>>)
    requires |uuid| == UUID_LEN && Terminated(blocks)
    requires bufs != [] && |bufs[0]| >= 21
    requires Flatten(bufs) == uuid + (BlocksBytes(blocks) + tail)
    ensures UnpadAll(uuid, START, bufs).out == Contents(blocks) + tail <==>
            NoRawMark(uuid, bufs, UUID_LEN + |BlocksBytes(blocks)|)
    ensures NoRawMark(uuid, bufs, UUID_LEN + |BlocksBytes(blocks)|) ==>
              UnpadAll(uuid, START, bufs).state == After(LastCommand(blocks))
  {
    var s, body := START.(command := 5), BlocksBytes(blocks) + tail;
    RunBlocks(s, blocks, tail);
    BlocksFramed(s, blocks, tail);
    CutOfFramed(uuid, s, body, |BlocksBytes(blocks)|, LastCommand(blocks), bufs);
  }

  lemma CutOfFramed(uuid: seq<Byte>, s: Unpad, body: seq<Byte>, end: nat, last: Byte, bufs: seq<seq<Byte>>)
    requires |uuid| == UUID_LEN && s == START.(command := 5) && Framed(s, body, end, last)
    requires bufs != [] && |bufs[0]| >= 21 && Flatten(bufs) <= uuid + body
    ensures var k := |Flatten(bufs)| - UUID_LEN;
            && 0 <= k <= |body|
            && (NoRawMark(uuid, bufs, UUID_LEN + end) ==> UnpadAll(uuid, START, bufs) == Run(s, body[..k]))
            && (!NoRawMark(uuid, bufs, UUID_LEN + end) ==> |UnpadAll(uuid, START, bufs).out| < |Run(s, body[..k]).out|)
            && (k == |body| ==> body[..k] == body)
  {
    var first, more := bufs[0][UUID_LEN..], bufs[1..];
    OpeningBuffer(uuid, bufs, body);
    PieceSplit(body, 0, first, Flatten(more));
    assert body[..|first|] == first;
    CleanIsOffsets(uuid, s, body, end, last, |first|, more);
    NoMarkShift(uuid, |first|, more, end, UUID_LEN);
    assert Flatten(bufs)[UUID_LEN..] == body[..|Flatten(bufs)| - UUID_LEN];
  }
}
