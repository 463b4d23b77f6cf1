/** VisionWriter.WriteMultiBuffer: padding until the connection shows its first application data,
    then one terminating block, then raw bytes; and the connection from end to end. */
module VisionWriter {
  import opened Bytes
  import opened VisionUnpadding
  import opened VisionRoundTrip
  import opened VisionFilter
  import opened VisionPadding
  import VisionReader

  lemma NoBlocks()
    ensures BlocksBytes([]) == [] && Contents([]) == []
  {
  }

  lemma {:induction false} BlocksBytesConcat(a: seq<Block>, b: seq<Block>)
    requires AllFit(a) && AllFit(b)
    ensures AllFit(a + b) && BlocksBytes(a + b) == BlocksBytes(a) + BlocksBytes(b)
    ensures Contents(a + b) == Contents(a) + Contents(b)
    decreases a
  {
    hide BlockBytes, Fits;
    if a == [] {
      assert a + b == b;
    } else {
      assert (a + b)[1..] == a[1..] + b && (a + b)[0] == a[0];
      BlocksBytesConcat(a[1..], b);
      Regroup(BlockBytes(a[0]), BlocksBytes(a[1..]), BlocksBytes(b));
      Regroup(a[0].content, Contents(a[1..]), Contents(b));
    }
  }

  lemma BlocksBytesSnoc(blocks: seq<Block>, b: Block)
    requires AllFit(blocks) && Fits(b)
    ensures AllFit(blocks + [b]) && BlocksBytes(blocks + [b]) == BlocksBytes(blocks) + BlockBytes(b)
    ensures Contents(blocks + [b]) == Contents(blocks) + b.content
  {
    BlocksBytesConcat(blocks, [b]);
    assert [b][1..] == [];
    assert BlocksBytes([b]) == BlockBytes(b) + BlocksBytes([b][1..]) == BlockBytes(b);
    assert Contents([b]) == b.content + Contents([b][1..]) == b.content;
  }

  ghost predicate AllContinue(blocks: seq<Block>) {
    forall i :: 0 <= i < |blocks| ==> blocks[i].command == CONTINUE
  }

  /** The buffer looks like application data in a connection known to be TLS. */
  predicate ApplicationData(f: Flags, complete: bool, b: seq<Byte>) {
    f.tls && complete && StartsRecord(b)
  }

  /** Too few packets are left to look for TLS 1.2. */
  predicate GivesUp(f: Flags) {
    !f.tls12 && f.packets <= 1
  }

  ghost predicate SomeApplicationData(f: Flags, complete: bool, mb: seq<seq<Byte>>) {
    exists i :: 0 <= i < |mb| && ApplicationData(f, complete, mb[i])
  }

  /** The data are whole application-data records and some buffer, as reshaped, begins one. */
  ghost predicate ShowsRecords(bufs: seq<seq<Byte>>)
    requires forall i :: 0 <= i < |bufs| ==> |bufs[i]| <= SIZE
  {
    IsRecords(Flatten(bufs)) && exists i :: 0 <= i < |Reshaped(bufs)| && StartsRecord(Reshaped(bufs)[i])
  }

  lemma DataShown(f: Flags, bufs: seq<seq<Byte>>)
    requires forall i :: 0 <= i < |bufs| ==> |bufs[i]| <= SIZE
    ensures SomeApplicationData(f, IsRecords(Flatten(bufs)), Reshaped(bufs)) <==> f.tls && ShowsRecords(bufs)
  {
    hide IsRecords, Reshaped, StartsRecord;
    var complete := IsRecords(Flatten(bufs));
    assert forall i :: 0 <= i < |Reshaped(bufs)| ==>
      (ApplicationData(f, complete, Reshaped(bufs)[i]) <==> f.tls && complete && StartsRecord(Reshaped(bufs)[i]));
  }

  ghost predicate AllConcealed(t: Seed, blocks: seq<Block>) {
    forall i :: 0 <= i < |blocks| ==> Concealed(t, blocks[i])
  }

  /** What one padded call may emit for the buffers mb: blocks for the first `used` of them, and
      either padding goes on or the last block, and no other, ends it. */
  ghost predicate Emits(f: Flags, complete: bool, mb: seq<seq<Byte>>, blocks: seq<Block>, used: int,
                        padding: bool, direct: bool)
  {
    && 0 <= used <= |mb| && |blocks| == used && AllFit(blocks)
    && Contents(blocks) == Flatten(mb[..used])
    && (padding ==> used == |mb| && AllContinue(blocks) && !direct)
    && (!padding ==> Terminated(blocks) && LastCommand(blocks) == if direct then DIRECT else END)
    && (direct ==> used == |mb|)
    && (!padding <==> mb != [] && (GivesUp(f) || SomeApplicationData(f, complete, mb)))
    && (direct <==> f.xtls && SomeApplicationData(f, complete, mb))
  }

  /** The commands chosen for the first |added| buffers of mb, no early end among them. */
  ghost predicate Chosen(f: Flags, complete: bool, mb: seq<seq<Byte>>, added: seq<Block>, padding: bool, direct: bool) {
    var i := |added|;
    && i <= |mb|
    && (!padding <==> SomeApplicationData(f, complete, mb[..i]))
    && (i > 0 && padding ==> !GivesUp(f))
    && (direct <==> !padding && f.xtls)
    && (forall j :: 0 <= j < i && (j < |mb| - 1 || padding) ==> added[j].command == CONTINUE)
    && (i == |mb| && !padding ==> added[i - 1].command == Terminator(f))
  }

  function Terminator(f: Flags): Byte {
    if f.xtls then DIRECT else END
  }

  /** The command of the next block when padding does not end early with it. */
  function CommandFor(f: Flags, padding: bool, last: bool): Byte {
    if last && !padding then Terminator(f) else CONTINUE
  }

  lemma ChosenStep(f: Flags, complete: bool, mb: seq<seq<Byte>>, added: seq<Block>, padding: bool, direct: bool, b: Block)
    requires Chosen(f, complete, mb, added, padding, direct) && |added| < |mb|
    requires var i := |added|;
             var data := ApplicationData(f, complete, mb[i]);
             (data || !GivesUp(f)) && b.command == CommandFor(f, padding && !data, i == |mb| - 1)
    ensures var data := ApplicationData(f, complete, mb[|added|]);
            Chosen(f, complete, mb, added + [b], padding && !data, direct || (data && f.xtls))
  {
    var i := |added|;
    assert mb[..i + 1] == mb[..i] + [mb[i]];
    assert SomeApplicationData(f, complete, mb[..i + 1]) <==>
           SomeApplicationData(f, complete, mb[..i]) || ApplicationData(f, complete, mb[i]) by {
      assert mb[..i + 1][i] == mb[i];
      assert forall j :: 0 <= j < i ==> mb[..i + 1][j] == mb[..i][j];
    }
  }

  lemma ChosenStart(f: Flags, complete: bool, mb: seq<seq<Byte>>)
    ensures Chosen(f, complete, mb, [], true, false)
  {
  }

  /** The two ways the loop ends. */
  lemma ChosenDone(f: Flags, complete: bool, mb: seq<seq<Byte>>, added: seq<Block>, padding: bool, direct: bool)
    requires Chosen(f, complete, mb, added, padding, direct) && |added| == |mb| && AllFit(added)
    requires Contents(added) == Flatten(mb)
    ensures Emits(f, complete, mb, added, |mb|, padding, direct)
  {
    assert mb[..|mb|] == mb;
  }

  lemma ChosenStop(f: Flags, complete: bool, mb: seq<seq<Byte>>, added: seq<Block>, padding: bool, direct: bool, b: Block)
    requires Coherent(f) && Chosen(f, complete, mb, added, padding, direct) && |added| < |mb|
    requires GivesUp(f) && b.command == END && AllFit(added) && Fits(b)
    requires Contents(added + [b]) == Flatten(mb[..|added| + 1])
    ensures Emits(f, complete, mb, added + [b], |added| + 1, false, direct)
  {
  }

  /** A MultiBuffer entry may be nil; a nil buffer holds nothing. */
  function BytesOf(b: Option<seq<Byte>>): seq<Byte> {
    if b.Some? then b.value else []
  }

  function Held(mb: seq<Option<seq<Byte>>>): seq<seq<Byte>> {
    seq(|mb|, i requires 0 <= i < |mb| => BytesOf(mb[i]))
  }

  lemma HeldAt(mb: seq<Option<seq<Byte>>>)
    ensures |Held(mb)| == |mb| && forall i :: 0 <= i < |mb| ==> Held(mb)[i] == BytesOf(mb[i])
  {
  }

  /** The buffers that XtlsFilterTls looks at: it skips nil. */
  function NonNil(mb: seq<Option<seq<Byte>>>): seq<seq<Byte>> {
    if mb == [] then []
    else (if mb[0].Some? then [mb[0].value] else []) + NonNil(mb[1..])
  }

  /** A block goes out behind the UUID if that is still held back. */
  lemma AppendBlock(sent: seq<Byte>, held: seq<Byte>, uuid: seq<Byte>, prior: seq<Byte>, block: seq<Byte>)
    requires sent + held == uuid + prior
    ensures sent + (held + block) == uuid + (prior + block)
  {
    assert sent + (held + block) == sent + held + block;
  }

  lemma AppendRaw(sent: seq<Byte>, uuid: seq<Byte>, prior: seq<Byte>, rest: seq<Byte>)
    requires sent == uuid + prior
    ensures sent + rest + [] == uuid + (prior + rest)
  {
  }

  /** Everything a writer has done: the blocks and raw bytes it sent, its flags, the UUID it still
      holds back, and the bytes it gave to the original writer and to the unwrapped connection. */
  datatype Sent = Sent(blocks: seq<Block>, raw: seq<Byte>, padding: bool, direct: bool, unwrapped: bool,
                       held: seq<Byte>, outer: seq<Byte>, inner: seq<Byte>)

  ghost predicate Shape(uuid: seq<Byte>, s: Sent) {
    && |uuid| == UUID_LEN && AllFit(s.blocks)
    && s.held == (if s.blocks == [] then uuid else [])
    && s.outer + s.inner == (if s.blocks == [] then [] else uuid) + (BlocksBytes(s.blocks) + s.raw)
    && (s.padding ==> AllContinue(s.blocks) && s.raw == [] && !s.direct && !s.unwrapped)
    && (!s.padding ==> Terminated(s.blocks) && LastCommand(s.blocks) <= DIRECT)
    && (s.direct ==> !s.unwrapped && LastCommand(s.blocks) == DIRECT)
    && (s.unwrapped ==> LastCommand(s.blocks) == DIRECT)
    && (!s.unwrapped ==> s.inner == [])
    // the connection below carries exactly the bytes after a Direct block
    && (!s.padding && LastCommand(s.blocks) == DIRECT ==> s.inner == s.raw && (s.direct || s.unwrapped))
  }

  /** All that the callers have handed over. */
  ghost function Plain(s: Sent): seq<Byte> {
    Contents(s.blocks) + s.raw
  }

  /** The start of every call: a pending switch takes effect. */
  function Unwrap(s: Sent): Sent {
    if s.direct then s.(direct := false, unwrapped := true) else s
  }

  function Deliver(s: Sent, bytes: seq<Byte>): Sent {
    if s.unwrapped then s.(inner := s.inner + bytes) else s.(outer := s.outer + bytes)
  }

  lemma UnwrapKeeps(uuid: seq<Byte>, s: Sent) returns (t: Sent)
    requires Shape(uuid, s)
    ensures t == Unwrap(s) && Shape(uuid, t)
  {
    t := Unwrap(s);
  }

  lemma RawCall(uuid: seq<Byte>, s: Sent, bytes: seq<Byte>) returns (t: Sent)
    requires Shape(uuid, s) && !s.padding && !s.direct
    ensures t == Deliver(s.(raw := s.raw + bytes), bytes)
    ensures Shape(uuid, t) && Plain(t) == Plain(s) + bytes
  {
    t := Deliver(s.(raw := s.raw + bytes), bytes);
    Regroup(Contents(s.blocks), s.raw, bytes);
    Regroup(BlocksBytes(s.blocks), s.raw, bytes);
    Regroup(uuid, BlocksBytes(s.blocks) + s.raw, bytes);
    Regroup(s.outer, s.inner, bytes);
    if !t.unwrapped {
      assert s.outer + bytes + [] == s.outer + [] + bytes;
    }
  }

  /** What a call while padding produced: bytes, the blocks they hold, the raw rest, the flags. */
  ghost predicate Emitted(before: seq<Byte>, bytes: seq<Byte>, held: seq<Byte>, added: seq<Block>, rest: seq<Byte>,
                          padding: bool, direct: bool)
  {
    && AllFit(added)
    && bytes + held == before + (BlocksBytes(added) + rest)
    && held == (if added == [] then before else [])
    && (padding ==> AllContinue(added) && !direct && rest == [])
    && (!padding ==> Terminated(added) && LastCommand(added) == if direct then DIRECT else END)
    && (direct ==> rest == [])
  }

  lemma PaddedBytes(uuid: seq<Byte>, s: Sent, added: seq<Block>, rest: seq<Byte>, bytes: seq<Byte>, held: seq<Byte>)
    requires Shape(uuid, s) && s.padding && AllFit(added)
    requires bytes + held == s.held + (BlocksBytes(added) + rest)
    requires held == (if added == [] then s.held else []) && (added == [] ==> rest == [])
    ensures AllFit(s.blocks + added)
    ensures s.outer + bytes == (if s.blocks + added == [] then [] else uuid) + (BlocksBytes(s.blocks + added) + rest)
  {
    hide BlocksBytes, Contents, Terminated, AllContinue, LastCommand, AllFit;
    BlocksBytesConcat(s.blocks, added);
    Regroup(BlocksBytes(s.blocks), BlocksBytes(added), rest);
    assert s.outer == s.outer + s.inner;
    assert BlocksBytes(s.blocks) == BlocksBytes(s.blocks) + s.raw;
    NoBlocks();
    assert s.outer + s.held == uuid + BlocksBytes(s.blocks);
    AppendBytes(s.outer, s.held, uuid, BlocksBytes(s.blocks), BlocksBytes(added) + rest, bytes, held, s.blocks + added == []);
  }

  lemma PaddedCall(uuid: seq<Byte>, s: Sent, added: seq<Block>, rest: seq<Byte>, bytes: seq<Byte>, held: seq<Byte>,
                   padding: bool, direct: bool) returns (t: Sent)
    requires Shape(uuid, s) && s.padding && Emitted(s.held, bytes, held, added, rest, padding, direct)
    ensures t == s.(blocks := s.blocks + added, raw := rest, padding := padding, direct := direct, held := held,
                    outer := s.outer + bytes)
    ensures Shape(uuid, t) && Plain(t) == Plain(s) + (Contents(added) + rest)
    ensures direct <==> !padding && LastCommand(t.blocks) == DIRECT
  {
    hide BlocksBytes, Contents;
    t := s.(blocks := s.blocks + added, raw := rest, padding := padding, direct := direct, held := held,
            outer := s.outer + bytes);
    PaddedBytes(uuid, s, added, rest, bytes, held);
    assert s.outer + bytes + [] == s.outer + bytes;
    BlocksBytesConcat(s.blocks, added);
    assert Contents(s.blocks) + [] == Contents(s.blocks);
    Regroup(Contents(s.blocks), Contents(added), rest);
    assert !padding ==> LastCommand(s.blocks + added) == LastCommand(added);
  }

  class VisionWriter {
    const userUUID: seq<Byte>
    const testseed: Seed
    const traffic: TrafficState
    var isPadding: bool
    var switchToDirectCopy: bool
    var writeOnceUserUUID: seq<Byte>
    var rawConnection: bool    // w.Writer is the unwrapped connection
    var outer: seq<Byte>       // bytes given to the original writer
    var inner: seq<Byte>       // bytes given to the unwrapped connection
    ghost var blocks: seq<Block>
    ghost var raw: seq<Byte>

    ghost function State(): Sent
      reads this
    {
      Sent(blocks, raw, isPadding, switchToDirectCopy, rawConnection, writeOnceUserUUID, outer, inner)
    }

    ghost predicate Valid()
      reads this, traffic
    {
      Shape(userUUID, State()) && GoodSeed(testseed) && Coherent(traffic.State())
    }

    constructor (uuid: seq<Byte>, traffic: TrafficState, testseed: Seed)
      requires |uuid| == UUID_LEN && GoodSeed(testseed) && Coherent(traffic.State())
      ensures Valid() && State() == Sent([], [], true, false, false, uuid, [], [])
      ensures this.traffic == traffic && userUUID == uuid && this.testseed == testseed
    {
      this.userUUID, this.traffic, this.testseed := uuid, traffic, testseed;
      isPadding, switchToDirectCopy, rawConnection := true, false, false;
      writeOnceUserUUID, outer, inner := uuid, [], [];
      blocks, raw := [], [];
    }

    ghost predicate CanPad()
      reads this, traffic
    {
      isPadding && !switchToDirectCopy && |writeOnceUserUUID| <= UUID_LEN && GoodSeed(testseed) && Coherent(traffic.State())
    }

    /** XtlsPadding on the writer's own UUID, which is sent once. */
    method PadOne(b: seq<Byte>, command: Byte, longPadding: bool) returns (nb: seq<Byte>, ghost block: Block)
      requires GoodSeed(testseed) && |b| <= SIZE - 21 && |writeOnceUserUUID| <= UUID_LEN
      modifies this`writeOnceUserUUID
      ensures block.command == command && block.content == b && Fits(block)
      ensures nb == old(writeOnceUserUUID) + BlockBytes(block) && writeOnceUserUUID == []
      ensures longPadding ==> Concealed(testseed, block)
    {
      ghost var draw;
      nb, block, draw := XtlsPadding(b, command, writeOnceUserUUID, longPadding, testseed);
      writeOnceUserUUID := [];
    }

    /** The body of the loop for one buffer; stop is the break. */
    method PadNext(b: seq<Byte>, isComplete: bool, last: bool, long: bool)
      returns (nb: seq<Byte>, ghost block: Block, longPadding: bool, stop: bool)
      requires GoodSeed(testseed) && |b| <= SIZE - 21 && |writeOnceUserUUID| <= UUID_LEN
      modifies this`isPadding, this`switchToDirectCopy, this`writeOnceUserUUID
      ensures block.content == b && Fits(block)
      ensures nb == old(writeOnceUserUUID) + BlockBytes(block) && writeOnceUserUUID == []
      ensures var f := traffic.State();
              var data := ApplicationData(f, isComplete, b);
              && stop == (!data && GivesUp(f))
              && isPadding == (old(isPadding) && !data && !stop)
              && switchToDirectCopy == (old(switchToDirectCopy) || (data && f.xtls))
              && block.command == (if stop then END else CommandFor(f, isPadding, last))
              && (data || long ==> Concealed(testseed, block)) && longPadding == (long && !data)
    {
      longPadding, stop := long, false;
      var f := traffic.State();
      if ApplicationData(f, isComplete, b) {
        if f.xtls {
          switchToDirectCopy := true;
        }
        nb, block := PadOne(b, if last then Terminator(f) else CONTINUE, true);
        isPadding := false;
        longPadding := false;
      } else if GivesUp(f) {
        isPadding := false;
        nb, block := PadOne(b, END, longPadding);
        stop := true;
      } else {
        nb, block := PadOne(b, CommandFor(f, isPadding, last), longPadding);
      }
    }

    /** The loop over the reshaped buffers. */
    method PadBuffers(mb: seq<seq<Byte>>, isComplete: bool)
      returns (bytes: seq<Byte>, ghost added: seq<Block>, ghost used: nat)
      requires GoodSeed(testseed) && Coherent(traffic.State()) && |writeOnceUserUUID| <= UUID_LEN
      requires isPadding && !switchToDirectCopy
      requires forall i :: 0 <= i < |mb| ==> |mb[i]| <= SIZE - 21
      modifies this`isPadding, this`switchToDirectCopy, this`writeOnceUserUUID
      ensures Emits(traffic.State(), isComplete, mb, added, used, isPadding, switchToDirectCopy)
      ensures bytes + writeOnceUserUUID == old(writeOnceUserUUID) + (BlocksBytes(added) + Flatten(mb[used..]))
      ensures writeOnceUserUUID == if mb == [] then old(writeOnceUserUUID) else []
      ensures traffic.isTls && isPadding ==> AllConcealed(testseed, added)
    {
      hide BlocksBytes, Contents, Coherent, GoodSeed, Concealed, ApplicationData, BlockBytes, Fits, Chosen, Emits, Terminator, CommandFor;
      ChosenStart(traffic.State(), isComplete, mb);
      ghost var f := traffic.State();
      var longPadding := traffic.isTls;
      ghost var uuid := writeOnceUserUUID;
      bytes, added, used := [], [], 0;
      NoBlocks();
      for i := 0 to |mb|
        invariant used == i == |added| && AllFit(added)
        invariant Contents(added) == Flatten(mb[..i])
        invariant bytes + writeOnceUserUUID == uuid + BlocksBytes(added)
        invariant writeOnceUserUUID == if i == 0 then uuid else []
        invariant Chosen(f, isComplete, mb, added, isPadding, switchToDirectCopy)
        invariant f.tls && isPadding ==> longPadding && AllConcealed(testseed, added)
      {
        assert mb[..i + 1] == mb[..i] + [mb[i]];
        FlattenSnoc(mb[..i], mb[i]);
        ghost var pad, direct, held, prior := isPadding, switchToDirectCopy, writeOnceUserUUID, added;
        var nb, block, long, stop := PadNext(mb[i], isComplete, i == |mb| - 1, longPadding);
        longPadding := long;
        BlocksBytesSnoc(prior, block);
        AppendBlock(bytes, held, uuid, BlocksBytes(prior), BlockBytes(block));
        bytes, added, used := bytes + nb, prior + [block], i + 1;
        if stop {
          ChosenStop(f, isComplete, mb, prior, pad, direct, block);
          AppendRaw(bytes, uuid, BlocksBytes(added), Flatten(mb[i + 1..]));
          bytes := bytes + Flatten(mb[i + 1..]);
          return;
        }
        ChosenStep(f, isComplete, mb, prior, pad, direct, block);
      }
      assert mb[..|mb|] == mb && Flatten(mb[|mb|..]) == [];
      assert BlocksBytes(added) + [] == BlocksBytes(added);
      ChosenDone(f, isComplete, mb, added, isPadding, switchToDirectCopy);
    }

    /** What one call does to the stream: bytes are conserved in order; at most one block of the whole
        run ends the padding, and it is the last block; that block is Direct exactly when the call
        leaves the direct-copy flag set; after it everything is raw. */
    method WriteMultiBuffer(mb: seq<Option<seq<Byte>>>, stale: seq<int>)
      requires Valid()
      requires forall i :: 0 <= i < |mb| ==> |BytesOf(mb[i])| <= SIZE
      requires |stale| == |NonNil(mb)|
      modifies this, traffic
      ensures Valid()
      ensures Plain(State()) == old(Plain(State())) + Flatten(Held(mb))
      ensures old(blocks) <= blocks && (!old(isPadding) ==> !isPadding && blocks == old(blocks))
      ensures switchToDirectCopy <==> old(isPadding) && !isPadding && LastCommand(blocks) == DIRECT
      ensures rawConnection <==> old(rawConnection) || old(switchToDirectCopy)
      // what the filter has learned
      ensures traffic.State() == if old(traffic.State()).packets > 0 then FilterAll(old(traffic.State()), NonNil(mb), stale)
                                 else old(traffic.State())
      // padding ends with the first whole records of a TLS connection, or when the filter gives up
      ensures var f := traffic.State();
              var bufs := Held(mb);
              var records := IsRecords(Flatten(bufs)) &&
                             exists i :: 0 <= i < |Reshaped(bufs)| && StartsRecord(Reshaped(bufs)[i]);
              var header := |mb| == 1 && mb[0].None?;
              && (isPadding <==> old(isPadding) &&
                                 (mb == [] || header || !((!f.tls12 && f.packets <= 1) || (f.tls && records))))
              && (switchToDirectCopy <==> old(isPadding) && !header && f.xtls && records)
      // the block lengths of a TLS handshake are hidden
      ensures isPadding && (traffic.isTls || (|mb| == 1 && mb[0].None?)) ==>
                forall i :: |old(blocks)| <= i < |blocks| ==> Concealed(testseed, blocks[i])
      ensures old(isPadding) && mb != [] ==> |blocks| > |old(blocks)|
    {
      hide Shape, Plain, FilterAll, Coherent, GoodSeed, IsRecords, Reshaped, StartsRecord, Concealed, Held, NonNil, LastCommand;
      HeldAt(mb);
      UnwrapIfDue();
      FilterIfDue(NonNil(mb), stale);
      if isPadding {
        ghost var added := WritePadded(mb);
        assert forall i :: 0 <= i < |added| ==> blocks[|old(blocks)| + i] == added[i];
      } else {
        WriteRaw(mb);
      }
    }

    /** A pending switch takes effect. */
    method UnwrapIfDue()
      requires Shape(userUUID, State())
      modifies this`rawConnection, this`switchToDirectCopy
      ensures Shape(userUUID, State()) && State() == Unwrap(old(State())) && Plain(State()) == Plain(old(State()))
      ensures old(switchToDirectCopy) ==> !isPadding
    {
      ghost var s := UnwrapKeeps(userUUID, State());
      if switchToDirectCopy {
        rawConnection := true;
        switchToDirectCopy := false;
      }
    }

    method FilterIfDue(bufs: seq<seq<Byte>>, stale: seq<int>)
      requires |stale| == |bufs| && Coherent(traffic.State())
      modifies traffic
      ensures traffic.State() == if old(traffic.State()).packets > 0 then FilterAll(old(traffic.State()), bufs, stale)
                                 else old(traffic.State())
      ensures Coherent(traffic.State())
    {
      ghost var f := traffic.State();
      if traffic.packetsToFilter > 0 {
        traffic.XtlsFilterTls(bufs, stale);
        FilterKeepsCoherent(f, bufs, stale);
      }
    }

    /** When the call has ended padding, and how. */
    ghost predicate EndsRight(mb: seq<Option<seq<Byte>>>)
      requires forall i :: 0 <= i < |Held(mb)| ==> |Held(mb)[i]| <= SIZE
      reads this, traffic
    {
      var f := traffic.State();
      var header := |mb| == 1 && mb[0].None?;
      && (!isPadding <==> !header && mb != [] && (GivesUp(f) || (f.tls && ShowsRecords(Held(mb)))))
      && (switchToDirectCopy <==> !header && f.xtls && ShowsRecords(Held(mb)))
    }

    ghost predicate Conceals(mb: seq<Option<seq<Byte>>>, added: seq<Block>)
      reads this, traffic
    {
      isPadding && (traffic.isTls || (|mb| == 1 && mb[0].None?)) ==> AllConcealed(testseed, added)
    }

    method WritePadded(mb: seq<Option<seq<Byte>>>) returns (ghost added: seq<Block>)
      requires CanPad() && Shape(userUUID, State())
      requires forall i :: 0 <= i < |Held(mb)| ==> |Held(mb)[i]| <= SIZE
      modifies this
      ensures EndsRight(mb) && Conceals(mb, added)
      ensures blocks == old(blocks) + added && (mb != [] ==> added != [])
      ensures Shape(userUUID, State()) && Plain(State()) == Plain(old(State())) + Flatten(Held(mb))
      ensures rawConnection == old(rawConnection)
      ensures switchToDirectCopy <==> !isPadding && LastCommand(blocks) == DIRECT
    {
      hide Shape, Plain, Emitted, BlocksBytes, Contents, GoodSeed, Coherent, ShowsRecords, AllConcealed;
      ghost var s := State();
      var bytes;
      ghost var rest;
      bytes, added, rest := PadCall(mb);
      ghost var t := PaddedCall(userUUID, s, added, rest, bytes, writeOnceUserUUID, isPadding, switchToDirectCopy);
      blocks, raw := blocks + added, rest;
      outer := outer + bytes;
      assert State() == t;
    }

    method WriteRaw(mb: seq<Option<seq<Byte>>>)
      requires Shape(userUUID, State()) && !isPadding && !switchToDirectCopy
      modifies this
      ensures Shape(userUUID, State()) && Plain(State()) == Plain(old(State())) + Flatten(Held(mb))
      ensures !isPadding && !switchToDirectCopy && blocks == old(blocks) && rawConnection == old(rawConnection)
    {
      hide Shape, Plain, BlocksBytes, Contents;
      var bytes := Flatten(Held(mb));
      ghost var t := RawCall(userUUID, State(), bytes);
      raw := raw + bytes;
      if rawConnection {
        inner := inner + bytes;
      } else {
        outer := outer + bytes;
      }
      assert State() == t;
    }

    /** The call while padding is on. */
    method PadCall(mb: seq<Option<seq<Byte>>>) returns (bytes: seq<Byte>, ghost added: seq<Block>, ghost rest: seq<Byte>)
      requires CanPad()
      requires forall i :: 0 <= i < |Held(mb)| ==> |Held(mb)[i]| <= SIZE
      modifies this`isPadding, this`switchToDirectCopy, this`writeOnceUserUUID
      ensures EndsRight(mb) && Conceals(mb, added) && (mb != [] ==> added != [])
      ensures Emitted(old(writeOnceUserUUID), bytes, writeOnceUserUUID, added, rest, isPadding, switchToDirectCopy)
      ensures Contents(added) + rest == Flatten(Held(mb))
    {
      if |mb| == 1 && mb[0].None? {
        bytes, added := PadHeader();
        rest := [];
        assert Held(mb) == [[]];
      } else {
        assert Held(mb) == [] <==> mb == [];
        bytes, added, rest := PadData(Held(mb));
      }
    }

    /** A single nil buffer: a long padding that hides the request header. */
    method PadHeader() returns (bytes: seq<Byte>, ghost added: seq<Block>)
      requires CanPad()
      modifies this`writeOnceUserUUID
      ensures Emitted(old(writeOnceUserUUID), bytes, writeOnceUserUUID, added, [], isPadding, switchToDirectCopy)
      ensures Contents(added) == [] && AllConcealed(testseed, added) && added != []
    {
      ghost var block;
      bytes, block := PadOne([], CONTINUE, true);
      added := [block];
      BlocksBytesSnoc([], block);
      assert [] + [block] == added;
      assert BlocksBytes(added) + [] == BlockBytes(block);
    }

    method PadData(mb: seq<seq<Byte>>) returns (bytes: seq<Byte>, ghost added: seq<Block>, ghost rest: seq<Byte>)
      requires CanPad()
      requires forall i :: 0 <= i < |mb| ==> |mb[i]| <= SIZE
      modifies this`isPadding, this`switchToDirectCopy, this`writeOnceUserUUID
      ensures Emitted(old(writeOnceUserUUID), bytes, writeOnceUserUUID, added, rest, isPadding, switchToDirectCopy)
      ensures Contents(added) + rest == Flatten(mb)
      ensures var f := traffic.State();
              && (!isPadding <==> mb != [] && (GivesUp(f) || (f.tls && ShowsRecords(mb))))
              && (switchToDirectCopy <==> f.xtls && ShowsRecords(mb))
      ensures traffic.isTls && isPadding ==> AllConcealed(testseed, added)
      ensures mb != [] ==> added != []
    {
      hide ShowsRecords, IsRecords, Reshaped, AllConcealed;
      DataShown(traffic.State(), mb);
      var isComplete := IsCompleteRecord(mb);
      var rb := ReshapeMultiBuffer(mb);
      ghost var used;
      bytes, added, used := PadBuffers(rb, isComplete);
      rest := Flatten(rb[used..]);
      FlattenConcat(rb[..used], rb[used..]);
      assert rb == rb[..used] + rb[used..];
    }
  }

  /** Bytes that bring the UUID along if it was still held back. */
  lemma AppendBytes(sent: seq<Byte>, held: seq<Byte>, uuid: seq<Byte>, prior: seq<Byte>, more: seq<Byte>,
                    bytes: seq<Byte>, left: seq<Byte>, nothing: bool)
    requires held == [] || held == uuid
    requires sent + held == uuid + prior
    requires bytes + left == held + more
    requires left == if nothing then uuid else []
    requires nothing ==> prior == more == []
    ensures sent + bytes == (if nothing then [] else uuid) + (prior + more)
  {
    if nothing {
      assert |bytes| + |uuid| == |held| && |sent| + |held| == |uuid|;
    } else {
      assert bytes == held + more;
      AppendBlock(sent, held, uuid, prior, more);
    }
  }

  /** One direction reads while the other writes, sharing what the filter learns: a read leaves the
      writer as it was, ready for its next call. */
  method ReadBetweenWrites(w: VisionWriter, r: VisionReader.VisionReader, buffer: seq<seq<Byte>>, stale: seq<int>)
    returns (out: seq<seq<Byte>>)
    requires w.Valid() && r.Valid() && w.traffic == r.traffic && |stale| == |buffer|
    requires forall i :: 0 <= i < |buffer| ==> |buffer[i]| <= SIZE
    modifies r, r.link, r.traffic
    ensures w.Valid() && r.Valid() && w.State() == old(w.State())
    ensures NeverUnlearns(old(w.traffic.State()), w.traffic.State())
  {
    hide Shape, GoodSeed;
    ghost var seen, beyond;
    out, seen, beyond := r.ReadMultiBuffer(buffer, stale);
  }

  /** Vision from end to end: whatever was written in whatever calls, and however its bytes are cut
      into reads none of which ends at an ambiguous offset, the reader delivers exactly what the writer was given,
      if and only if no buffer that it unpads opens with the UUID again; and then it changes mode at
      the same offset. */
  lemma VisionEndToEnd(w: VisionWriter, arrivals: seq<VisionReader.Read>)
    requires w.Valid() && !w.isPadding
    requires Flatten(VisionReader.AllBuffers(arrivals)) == w.outer + w.inner
    requires arrivals != [] && arrivals[0].bufs != [] && |arrivals[0].bufs[0]| >= 21
    requires VisionReader.NoAmbiguousEnd(w.blocks, -UUID_LEN, arrivals)
    ensures var start := VisionReader.Mode(START, true, false);
            var clear := VisionReader.SeenClear(w.userUUID, arrivals, |BlocksBytes(w.blocks)|, LastCommand(w.blocks));
            && (VisionReader.ReadAll(w.userUUID, start, arrivals).out == Plain(w.State()) <==> clear)
            && (clear ==>
                  VisionReader.Tracks(w.userUUID, start, |BlocksBytes(w.blocks)|, LastCommand(w.blocks), -UUID_LEN, arrivals))
    ensures LastCommand(w.blocks) == DIRECT ==> |w.outer| == UUID_LEN + |BlocksBytes(w.blocks)|
  {
    hide VisionReader.SeenClear, VisionReader.ReadStep;
    VisionReader.ReaderFollowsWriter(w.userUUID, w.blocks, w.raw, arrivals);
  }

  /** The same when the outer connection had read ahead: the stream on the wire is what the reads brought
      and, at the switch, what was held; the calls of ReadMultiBuffer return it exactly once. Nothing is
      asked of the held bytes. */
  lemma VisionHandover(w: VisionWriter, held: seq<Byte>, arrivals: seq<VisionReader.Read>)
    requires w.Valid() && !w.isPadding
    requires var wire := VisionReader.OnWire(w.userUUID, VisionReader.Mode(START, true, false), held, arrivals);
             && Flatten(VisionReader.AllBuffers(wire)) == w.outer + w.inner
             && wire != [] && wire[0].bufs != [] && |wire[0].bufs[0]| >= 21
             && VisionReader.NoAmbiguousEnd(w.blocks, -UUID_LEN, wire)
    ensures var start := VisionReader.Mode(START, true, false);
            VisionReader.ReadsOut(w.userUUID, start, held, arrivals) == Plain(w.State()) <==>
            VisionReader.SeenClear(w.userUUID, VisionReader.OnWire(w.userUUID, start, held, arrivals),
                                   |BlocksBytes(w.blocks)|, LastCommand(w.blocks))
  {
    hide VisionReader.SeenClear, VisionReader.ReadStep;
    var start := VisionReader.Mode(START, true, false);
    VisionReader.HandoverIsARead(w.userUUID, start, held, arrivals);
    VisionEndToEnd(w, VisionReader.OnWire(w.userUUID, start, held, arrivals));
  }

  // ---------------------------------------------------------------- a connection still under way

  lemma {:induction false} RunContinue(s: Unpad, blocks: seq<Block>)
    requires VisionUnpadding.Valid(s) && s.command == 5 && AllFit(blocks) && AllContinue(blocks)
    ensures Run(s, BlocksBytes(blocks)).out == Contents(blocks)
    decreases blocks
  {
    hide Run, BlockBytes, Fits;
    if blocks == [] {
      RunNil(s);
    } else {
      RunBlock(s, blocks[0], BlocksBytes(blocks[1..]));
      assert AllContinue(blocks[1..]);
      RunContinue(VisionRoundTrip.After(CONTINUE), blocks[1..]);
    }
  }

  lemma PrefixFits(blocks: seq<Block>, j: nat)
    requires AllFit(blocks) && j <= |blocks|
    ensures AllFit(blocks[..j]) && AllFit(blocks[j..])
    ensures BlocksBytes(blocks) == BlocksBytes(blocks[..j]) + BlocksBytes(blocks[j..])
    ensures Contents(blocks) == Contents(blocks[..j]) + Contents(blocks[j..])
  {
    hide Fits, BlocksBytes, Contents;
    assert AllFit(blocks[..j]) && AllFit(blocks[j..]);
    assert blocks == blocks[..j] + blocks[j..];
    BlocksBytesConcat(blocks[..j], blocks[j..]);
  }

  /** At the end of a block everything up to it has come out. */
  lemma BoundaryOut(blocks: seq<Block>, tail: seq<Byte>, j: nat)
    requires Terminated(blocks) && j <= |blocks|
    ensures AllFit(blocks[..j]) && |BlocksBytes(blocks[..j])| <= |BlocksBytes(blocks) + tail|
    ensures Run(START.(command := 5), (BlocksBytes(blocks) + tail)[..|BlocksBytes(blocks[..j])|]).out == Contents(blocks[..j])
  {
    hide Run, BlocksBytes, Contents;
    var s := START.(command := 5);
    PrefixFits(blocks, j);
    assert (BlocksBytes(blocks) + tail)[..|BlocksBytes(blocks[..j])|] == BlocksBytes(blocks[..j]);
    if j < |blocks| {
      assert AllContinue(blocks[..j]);
      RunContinue(s, blocks[..j]);
    } else {
      assert blocks[..j] == blocks;
      RunBlocks(s, blocks, []);
      assert BlocksBytes(blocks) + [] == BlocksBytes(blocks) && Contents(blocks) + [] == Contents(blocks);
    }
  }

  const CLOSING := Block(END, [], [])

  /** What a padding writer has sent, as if it were to end with the next block. */
  lemma Closing(blocks: seq<Block>)
    requires AllFit(blocks) && AllContinue(blocks)
    ensures var all := blocks + [CLOSING];
            && Terminated(all) && LastCommand(all) == END && Contents(all) == Contents(blocks)
            && |BlocksBytes(all)| == |BlocksBytes(blocks)| + 5 && BlocksBytes(blocks) <= BlocksBytes(all)
  {
    BlocksBytesSnoc(blocks, CLOSING);
  }

  /** No header of a terminating block has begun. */
  lemma {:induction false} NotAmbiguous(blocks: seq<Block>, k: int)
    requires AllFit(blocks) && AllContinue(blocks) && AllFit(blocks + [CLOSING]) && k <= |BlocksBytes(blocks)|
    ensures !VisionReader.Ambiguous(blocks + [CLOSING], k)
    decreases blocks
  {
    if blocks == [] {
      assert BlocksBytes(blocks) == [] && |BlockBytes(CLOSING)| == 5;
      assert (blocks + [CLOSING])[0] == CLOSING;
    } else {
      hide BlockBytes, Fits;
      assert (blocks + [CLOSING])[1..] == blocks[1..] + [CLOSING] && (blocks + [CLOSING])[0] == blocks[0];
      if k >= |BlockBytes(blocks[0])| {
        NotAmbiguous(blocks[1..], k - |BlockBytes(blocks[0])|);
      }
    }
  }

  lemma {:induction false} NoneAmbiguous(blocks: seq<Block>, done: int, arrivals: seq<VisionReader.Read>)
    requires AllFit(blocks) && AllContinue(blocks) && AllFit(blocks + [CLOSING])
    requires done + |Flatten(VisionReader.AllBuffers(arrivals))| <= |BlocksBytes(blocks)|
    ensures VisionReader.NoAmbiguousEnd(blocks + [CLOSING], done, arrivals)
    decreases arrivals
  {
    hide VisionReader.Ambiguous, BlocksBytes;
    if arrivals != [] {
      FlattenConcat(arrivals[0].bufs, VisionReader.AllBuffers(arrivals[1..]));
      NotAmbiguous(blocks, done + |Flatten(arrivals[0].bufs)|);
      NoneAmbiguous(blocks, done + |Flatten(arrivals[0].bufs)|, arrivals[1..]);
    }
  }

  lemma {:induction false} NoMarkYet(uuid: seq<Byte>, done: nat, bufs: seq<seq<Byte>>, end: nat)
    requires done + |Flatten(bufs)| < end
    ensures NoMarkFrom(uuid, done, bufs, end)
    decreases bufs
  {
    if bufs != [] {
      NoMarkYet(uuid, done + |bufs[0]|, bufs[1..], end);
    }
  }

  lemma {:induction false} NoReadMarkYet(uuid: seq<Byte>, done: nat, arrivals: seq<VisionReader.Read>, end: nat, last: Byte)
    requires done + |Flatten(VisionReader.AllBuffers(arrivals))| < end
    ensures VisionReader.NoReadMark(uuid, done, arrivals, end, last)
    decreases arrivals
  {
    if arrivals != [] {
      FlattenConcat(arrivals[0].bufs, VisionReader.AllBuffers(arrivals[1..]));
      NoMarkYet(uuid, done, arrivals[0].bufs, end);
      NoReadMarkYet(uuid, done + |Flatten(arrivals[0].bufs)|, arrivals[1..], end, last);
    }
  }

  lemma ClearSoFar(uuid: seq<Byte>, arrivals: seq<VisionReader.Read>, end: nat, last: Byte)
    requires arrivals != [] && arrivals[0].bufs != [] && |arrivals[0].bufs[0]| >= 21
    requires |Flatten(VisionReader.AllBuffers(arrivals))| < UUID_LEN + end
    ensures VisionReader.SeenClear(uuid, arrivals, end, last)
  {
    var bufs := arrivals[0].bufs;
    FlattenConcat(bufs, VisionReader.AllBuffers(arrivals[1..]));
    assert |Flatten(bufs)| == |bufs[0]| + |Flatten(bufs[1..])|;
    NoMarkYet(uuid, |bufs[0]|, bufs[1..], UUID_LEN + end);
    NoReadMarkYet(uuid, |Flatten(bufs)| - UUID_LEN, arrivals[1..], end, last);
  }

  /** While the writer still pads: the reader has delivered the beginning of what was written, all of it up to
      the block in which its last read ended, and everything if everything has arrived. */
  lemma PaddingSoFar(w: VisionWriter, arrivals: seq<VisionReader.Read>)
    requires w.Valid() && w.isPadding
    requires Flatten(VisionReader.AllBuffers(arrivals)) <= w.outer + w.inner
    requires arrivals != [] && arrivals[0].bufs != [] && |arrivals[0].bufs[0]| >= 21
    ensures var out := VisionReader.ReadAll(w.userUUID, VisionReader.Mode(START, true, false), arrivals).out;
            var stop := |Flatten(VisionReader.AllBuffers(arrivals))| - UUID_LEN;
            && out <= Plain(w.State())
            && (forall j | 0 <= j <= |w.blocks| ::
                  AllFit(w.blocks[..j]) && (stop == |BlocksBytes(w.blocks[..j])| ==> out == Contents(w.blocks[..j])))
            && (Flatten(VisionReader.AllBuffers(arrivals)) == w.outer + w.inner ==> out == Plain(w.State()))
  {
    hide VisionReader.SeenClear, VisionReader.ReadStep, Run, BlocksBytes, Contents, VisionReader.Ambiguous;
    var bytes := Flatten(VisionReader.AllBuffers(arrivals));
    FlattenConcat(arrivals[0].bufs, VisionReader.AllBuffers(arrivals[1..]));
    assert |arrivals[0].bufs[0]| <= |Flatten(arrivals[0].bufs)| <= |w.outer + w.inner|;
    NoBlocks();
    assert BlocksBytes(w.blocks) + w.raw == BlocksBytes(w.blocks);
    assert w.blocks != [] && w.outer + w.inner == w.userUUID + BlocksBytes(w.blocks);
    var all := w.blocks + [CLOSING];
    Closing(w.blocks);
    assert bytes <= w.userUUID + (BlocksBytes(all) + []);
    NoneAmbiguous(w.blocks, -UUID_LEN, arrivals);
    ClearSoFar(w.userUUID, arrivals, |BlocksBytes(all)|, END);
    VisionReader.ReaderSoFar(w.userUUID, all, [], arrivals);
    assert Contents(all) + [] == Contents(w.blocks) + [];
    forall j | 0 <= j <= |w.blocks|
      ensures AllFit(w.blocks[..j])
      ensures |bytes| - UUID_LEN == |BlocksBytes(w.blocks[..j])| ==>
                VisionReader.ReadAll(w.userUUID, VisionReader.Mode(START, true, false), arrivals).out == Contents(w.blocks[..j])
    {
      assert all[..j] == w.blocks[..j];
      BoundaryOut(all, [], j);
    }
    assert w.blocks[..|w.blocks|] == w.blocks;
  }

  /** After padding, when only part of the stream has arrived: the same. */
  lemma TerminatedSoFar(w: VisionWriter, arrivals: seq<VisionReader.Read>)
    requires w.Valid() && !w.isPadding
    requires Flatten(VisionReader.AllBuffers(arrivals)) <= w.outer + w.inner
    requires arrivals != [] && arrivals[0].bufs != [] && |arrivals[0].bufs[0]| >= 21
    requires VisionReader.NoAmbiguousEnd(w.blocks, -UUID_LEN, arrivals)
    requires VisionReader.SeenClear(w.userUUID, arrivals, |BlocksBytes(w.blocks)|, LastCommand(w.blocks))
    ensures var out := VisionReader.ReadAll(w.userUUID, VisionReader.Mode(START, true, false), arrivals).out;
            var stop := |Flatten(VisionReader.AllBuffers(arrivals))| - UUID_LEN;
            && out <= Plain(w.State())
            && (forall j | 0 <= j <= |w.blocks| ::
                  AllFit(w.blocks[..j]) && (stop == |BlocksBytes(w.blocks[..j])| ==> out == Contents(w.blocks[..j])))
  {
    hide VisionReader.SeenClear, VisionReader.ReadStep, Run, BlocksBytes, Contents, VisionReader.Ambiguous;
    VisionReader.ReaderSoFar(w.userUUID, w.blocks, w.raw, arrivals);
    forall j | 0 <= j <= |w.blocks|
      ensures AllFit(w.blocks[..j])
      ensures |Flatten(VisionReader.AllBuffers(arrivals))| - UUID_LEN == |BlocksBytes(w.blocks[..j])| ==>
                VisionReader.ReadAll(w.userUUID, VisionReader.Mode(START, true, false), arrivals).out == Contents(w.blocks[..j])
    {
      BoundaryOut(w.blocks, w.raw, j);
    }
  }
}
