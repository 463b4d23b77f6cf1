/** The sending half of the Vision padding protocol: complete-record detection, reshaping and the
    padding of one buffer. */
module VisionPadding {
  import opened Bytes
  import Buf
  import opened VisionUnpadding
  import opened VisionFilter

  // ---------------------------------------------------------------- IsCompleteRecord

  /** One TLS application-data record, the shape of section 5.2 of RFC 8446. */
  function Record(payload: seq<Byte>): seq<Byte>
    requires 0 < |payload| < 65536
  {
    APPLICATION_DATA_START + PutUint16(|payload|) + payload
  }

  ghost predicate Payloads(ps: seq<seq<Byte>>) {
    forall i :: 0 <= i < |ps| ==> 0 < |ps[i]| < 65536
  }

  ghost function Records(ps: seq<seq<Byte>>): seq<Byte>
    requires Payloads(ps)
  {
    if ps == [] then [] else Record(ps[0]) + Records(ps[1..])
  }

  ghost predicate IsRecords(b: seq<Byte>) {
    exists ps :: Payloads(ps) && Records(ps) == b
  }

  /** The same grammar read from index at on. */
  predicate Scans(b: seq<Byte>, at: nat)
    requires at <= |b|
    decreases |b| - at
  {
    at == |b| ||
    (&& at + 5 <= |b| && b[at] == 0x17 && b[at + 1] == 3 && b[at + 2] == 3
     && var n := Word(b[at + 3], b[at + 4]);
        0 < n <= |b| - at - 5 && Scans(b, at + 5 + n))
  }

  lemma {:induction false} RecordsScan(b: seq<Byte>, at: nat, ps: seq<seq<Byte>>)
    requires Payloads(ps) && at <= |b| && b[at..] == Records(ps)
    ensures Scans(b, at)
    decreases ps
  {
    hide PutUint16, Word;
    if ps != [] {
      var n := |ps[0]|;
      var h := b[at..];
      assert h == Record(ps[0]) + Records(ps[1..]);
      hide Records, Record;
      RecordAt(ps[0], Records(ps[1..]));
      HeaderHere(b, at, h, n);
      RecordsScan(b, at + 5 + n, ps[1..]);
    }
  }

  lemma HeaderHere(b: seq<Byte>, at: nat, h: seq<Byte>, n: nat)
    requires at <= |b| && h == b[at..] && |h| >= 5 + n
    ensures b[at + 5 + n..] == h[5 + n..]
    ensures b[at] == h[0] && b[at + 1] == h[1] && b[at + 2] == h[2] && b[at + 3] == h[3] && b[at + 4] == h[4]
  {
  }

  lemma RecordAt(payload: seq<Byte>, rest: seq<Byte>)
    requires 0 < |payload| < 65536
    ensures var h := Record(payload) + rest;
            && |h| >= 5 + |payload| && h[0] == 0x17 && h[1] == 3 && h[2] == 3
            && Word(h[3], h[4]) == |payload| && h[5 + |payload|..] == rest
  {
    Uint16RoundTrip(|payload|);
    hide PutUint16, Word;
    var h := Record(payload) + rest;
    assert h[3] == PutUint16(|payload|)[0] && h[4] == PutUint16(|payload|)[1];
  }

  lemma {:induction false} ScanRecords(b: seq<Byte>, at: nat) returns (ps: seq<seq<Byte>>)
    requires at <= |b| && Scans(b, at)
    ensures Payloads(ps) && Records(ps) == b[at..]
    decreases |b| - at
  {
    hide PutUint16, Word;
    if at == |b| {
      ps := [];
    } else {
      var n := Word(b[at + 3], b[at + 4]);
      WordRoundTrip(b[at + 3], b[at + 4]);
      var more := ScanRecords(b, at + 5 + n);
      ps := [b[at + 5..at + 5 + n]] + more;
      assert ps[1..] == more;
      assert b[at..] == b[at..at + 3] + b[at + 3..at + 5] + b[at + 5..at + 5 + n] + b[at + 5 + n..];
    }
  }

  lemma GrammarIsScan(b: seq<Byte>)
    ensures IsRecords(b) <==> Scans(b, 0)
  {
    assert b[0..] == b;
    if Scans(b, 0) {
      var ps := ScanRecords(b, 0);
    }
    if IsRecords(b) {
      var ps :| Payloads(ps) && Records(ps) == b;
      RecordsScan(b, 0, ps);
    }
  }

  /** What the header bytes read so far commit to: `at` is where the record began. */
  ghost predicate InHeader(b: seq<Byte>, at: int, i: int, headerLen: int, recordLen: int) {
    && 0 <= at <= i <= |b| && 0 <= headerLen <= 5 && i == at + 5 - headerLen
    && (forall j :: at <= j < i && j < at + 3 ==> b[j] == APPLICATION_DATA_START[j - at])
    && recordLen == if headerLen >= 2 then 0
                    else Word(b[at + 3], if headerLen == 1 then 0 else b[at + 4])
  }

  /** The switch on headerLen: which byte is acceptable, and the record length it leaves. */
  predicate Accepts(headerLen: int, data: Byte) {
    (headerLen == 5 ==> data == 0x17) && (headerLen == 4 || headerLen == 3 ==> data == 3)
  }

  function NextLen(headerLen: int, recordLen: int, data: Byte): int {
    if headerLen == 2 then Word(data, 0) else if headerLen == 1 then recordLen + data else recordLen
  }

  lemma HeaderStep(b: seq<Byte>, at: int, i: int, headerLen: int, recordLen: int)
    requires InHeader(b, at, i, headerLen, recordLen) && i < |b| && headerLen > 0
    ensures Accepts(headerLen, b[i]) ==>
              InHeader(b, at, i + 1, headerLen - 1, NextLen(headerLen, recordLen, b[i]))
    ensures !Accepts(headerLen, b[i]) ==> !Scans(b, at)
  {
  }

  /** True exactly on zero or more whole application-data records, however they are cut into buffers. */
  method IsCompleteRecord(buffer: seq<seq<Byte>>) returns (complete: bool)
    ensures complete <==> IsRecords(Flatten(buffer))
  {
    var b := Flatten(buffer);
    GrammarIsScan(b);
    var headerLen: int, recordLen: int, i: int := 5, 0, 0;
    ghost var at := 0;
    while i < |b|
      invariant InHeader(b, at, i, headerLen, recordLen)
      invariant Scans(b, 0) <==> Scans(b, at)
      decreases |b| - i, headerLen
    {
      if headerLen > 0 {
        HeaderStep(b, at, i, headerLen, recordLen);
        if !Accepts(headerLen, b[i]) {
          return false;
        }
        recordLen := NextLen(headerLen, recordLen, b[i]);
        i := i + 1;
        headerLen := headerLen - 1;
      } else if recordLen > 0 {
        if |b| - i < recordLen {
          return false;
        }
        i := i + recordLen;
        recordLen, headerLen, at := 0, 5, i;
      } else {
        return false;
      }
    }
    complete := headerLen == 5 && recordLen == 0;
  }

  // ---------------------------------------------------------------- ReshapeMultiBuffer

  /** bytes.LastIndex: the last place where part occurs at or before i, or -1. */
  function LastIndex(s: seq<Byte>, part: seq<Byte>, i: int): (r: int)
    requires i <= |s|
    ensures -1 <= r <= |s|
    ensures r >= 0 ==> OccursAt(s, part, r)
    ensures forall j :: r < j <= i ==> !OccursAt(s, part, j)
    decreases i + 1
  {
    if i < 0 then -1 else if OccursAt(s, part, i) then i else LastIndex(s, part, i - 1)
  }

  function CutIndex(b: seq<Byte>): int {
    var index := LastIndex(b, APPLICATION_DATA_START, |b|);
    if index < 21 || index > SIZE - 21 then SIZE / 2 else index
  }

  predicate HeaderAt(b: seq<Byte>, j: int) {
    0 <= j <= |b| - 3 && b[j] == 0x17 && b[j + 1] == 3 && b[j + 2] == 3
  }

  lemma HeaderOccurs(b: seq<Byte>, j: int)
    ensures OccursAt(b, APPLICATION_DATA_START, j) <==> HeaderAt(b, j)
  {
    if 0 <= j <= |b| - 3 {
      assert b[j..j + 3] == [b[j], b[j + 1], b[j + 2]];
    }
  }

  /** A large buffer is cut before the last application-data header in it, if that leaves room on both sides,
      and in the middle otherwise. */
  lemma CutsAtLastHeader(b: seq<Byte>, k: nat)
    requires HeaderAt(b, k) && forall j :: k < j <= |b| - 3 ==> !HeaderAt(b, j)
    ensures CutIndex(b) == if 21 <= k <= 8171 then k else 4096
  {
    hide LastIndex, HeaderAt, OccursAt;
    HeaderOccurs(b, k);
    HeaderInside(b, k);
    HeaderOccurs(b, LastIndex(b, APPLICATION_DATA_START, |b|));
    HeaderInside(b, LastIndex(b, APPLICATION_DATA_START, |b|));
  }

  lemma HeaderInside(b: seq<Byte>, j: int)
    requires HeaderAt(b, j)
    ensures 0 <= j <= |b| - 3
  {
  }

  lemma CutsInTheMiddle(b: seq<Byte>)
    requires forall j :: 0 <= j <= |b| - 3 ==> !HeaderAt(b, j)
    ensures CutIndex(b) == 4096
  {
    hide LastIndex;
    HeaderOccurs(b, LastIndex(b, APPLICATION_DATA_START, |b|));
  }

  /** What becomes of one buffer. */
  function Pieces(b: seq<Byte>): seq<seq<Byte>>
    requires |b| <= SIZE
  {
    if |b| >= SIZE - 21 then [b[..CutIndex(b)]] + [b[CutIndex(b)..]] else [b]
  }

  function Reshaped(buffer: seq<seq<Byte>>): seq<seq<Byte>>
    requires forall i :: 0 <= i < |buffer| ==> |buffer[i]| <= SIZE
  {
    if buffer == [] then [] else Reshaped(buffer[..|buffer| - 1]) + Pieces(buffer[|buffer| - 1])
  }

  lemma {:induction false} SmallUnchanged(buffer: seq<seq<Byte>>)
    requires forall i :: 0 <= i < |buffer| ==> |buffer[i]| < SIZE - 21
    ensures Reshaped(buffer) == buffer
    decreases |buffer|
  {
    hide CutIndex;
    if buffer != [] {
      SmallUnchanged(buffer[..|buffer| - 1]);
      assert Pieces(buffer[|buffer| - 1]) == [buffer[|buffer| - 1]];
    }
  }

  lemma {:induction false} FirstPiece(buffer: seq<seq<Byte>>)
    requires forall i :: 0 <= i < |buffer| ==> |buffer[i]| <= SIZE
    requires buffer != []
    ensures var r := Reshaped(buffer);
            r != [] && r[0] <= buffer[0] && (|r[0]| >= 21 || r[0] == buffer[0])
    decreases |buffer|
  {
    hide LastIndex, OccursAt;
    if |buffer| > 1 {
      FirstPiece(buffer[..|buffer| - 1]);
    } else {
      assert Reshaped(buffer[..0]) == [];
      assert Reshaped(buffer) == Pieces(buffer[0]);
    }
  }

  /** Six bytes or more that begin like an application-data record. */
  predicate StartsRecord(b: seq<Byte>) {
    |b| >= 6 && b[0] == 0x17 && b[1] == 3 && b[2] == 3
  }

  /** Whole records always show themselves, unless the first buffer holds less than six bytes. */
  lemma WholeRecordsStart(buffer: seq<seq<Byte>>)
    requires forall i :: 0 <= i < |buffer| ==> |buffer[i]| <= SIZE
    requires IsRecords(Flatten(buffer)) && buffer != [] && |buffer[0]| >= 6
    ensures Reshaped(buffer) != [] && StartsRecord(Reshaped(buffer)[0])
  {
    FirstPiece(buffer);
    GrammarIsScan(Flatten(buffer));
    var b := Flatten(buffer);
    assert b == buffer[0] + Flatten(buffer[1..]);
    assert Scans(b, 0);
    assert forall j :: 0 <= j < |Reshaped(buffer)[0]| ==> Reshaped(buffer)[0][j] == buffer[0][j] == b[j];
  }

  lemma NothingReshaped()
    ensures Reshaped([]) == []
  {
  }

  /** The last of the buffers reshaped. */
  lemma ReshapedSnoc(buffer: seq<seq<Byte>>, i: nat)
    requires forall i :: 0 <= i < |buffer| ==> |buffer[i]| <= SIZE
    requires i < |buffer|
    ensures Reshaped(buffer[..i + 1]) == Reshaped(buffer[..i]) + Pieces(buffer[i])
  {
    assert buffer[..i + 1][..i] == buffer[..i];
  }

  /** Every buffer small enough to be padded, the bytes and their order as before, a buffer that was
      small enough left alone. */
  method ReshapeMultiBuffer(buffer: seq<seq<Byte>>) returns (mb2: seq<seq<Byte>>)
    requires forall i :: 0 <= i < |buffer| ==> |buffer[i]| <= SIZE
    ensures mb2 == Reshaped(buffer)
    ensures Flatten(mb2) == Flatten(buffer)
    ensures forall i :: 0 <= i < |mb2| ==> |mb2[i]| <= SIZE - 21
    ensures (forall i :: 0 <= i < |buffer| ==> |buffer[i]| < SIZE - 21) ==> mb2 == buffer
    ensures buffer != [] ==> mb2 != []
    ensures |buffer| <= |mb2| <= 2 * |buffer|
  {
    hide Flatten, LastIndex, OccursAt, Reshaped;
    NothingReshaped();
    var needReshape := 0;
    for i := 0 to |buffer|
      invariant needReshape >= 0
      invariant needReshape == 0 <==> forall j :: 0 <= j < i ==> |buffer[j]| < SIZE - 21
    {
      if |buffer[i]| >= SIZE - 21 {
        needReshape := needReshape + 1;
      }
    }
    if needReshape == 0 {
      SmallUnchanged(buffer);
      return buffer;
    }
    mb2 := [];
    for i := 0 to |buffer|
      invariant mb2 == Reshaped(buffer[..i])
      invariant Flatten(mb2) == Flatten(buffer[..i])
      invariant forall j :: 0 <= j < |mb2| ==> |mb2[j]| <= SIZE - 21
      invariant i <= |mb2| <= 2 * i
    {
      var buffer1 := buffer[i];
      assert buffer[..i + 1] == buffer[..i] + [buffer1];
      FlattenSnoc(buffer[..i], buffer1);
      ReshapedSnoc(buffer, i);
      if |buffer1| >= SIZE - 21 {
        var index := CutIndex(buffer1);
        FlattenSnoc(mb2, buffer1[..index]);
        FlattenSnoc(mb2 + [buffer1[..index]], buffer1[index..]);
        assert buffer1 == buffer1[..index] + buffer1[index..];
        mb2 := mb2 + [buffer1[..index]] + [buffer1[index..]];
      } else {
        FlattenSnoc(mb2, buffer1);
        mb2 := mb2 + [buffer1];
      }
    }
    assert buffer[..|buffer|] == buffer;
  }

  // ---------------------------------------------------------------- XtlsPadding

  const TWO31 := 0x8000_0000
  const TWO32 := 0x1_0000_0000

  /** Conversion to int32, wrapping; one turn is all that the sums below can need. */
  function Int32(x: int): (r: int)
    requires -TWO32 <= x < TWO32
    ensures -TWO31 <= r < TWO31
  {
    if x >= TWO31 then x - TWO32 else if x < -TWO31 then x + TWO32 else x
  }

  /** The four configurable padding parameters. */
  datatype Seed = Seed(threshold: int, longBound: int, longBase: int, shortBound: int)

  const DEFAULT_SEED := Seed(900, 500, 900, 256)

  /** uint32 parameters whose random bounds are positive; crypto/rand panics on a zero bound. */
  predicate Uint32Seed(t: Seed) {
    0 <= t.threshold < TWO32 && 0 < t.longBound < TWO32 && 0 <= t.longBase < TWO32 && 0 < t.shortBound < TWO32
  }

  predicate Long(t: Seed, contentLen: int, longPadding: bool)
    requires Uint32Seed(t)
  {
    contentLen < Int32(t.threshold) && longPadding
  }

  function DrawBound(t: Seed, contentLen: int, longPadding: bool): int
    requires Uint32Seed(t)
  {
    if Long(t, contentLen, longPadding) then t.longBound else t.shortBound
  }

  /** The padding length for a random draw l, in int32 arithmetic. */
  function PaddingLen(t: Seed, contentLen: int, longPadding: bool, l: int): int
    requires Uint32Seed(t) && 0 <= contentLen <= SIZE - 21 && 0 <= l < DrawBound(t, contentLen, longPadding)
  {
    var p := if Long(t, contentLen, longPadding) then Int32(Int32(Int32(l) + Int32(t.longBase)) - contentLen)
             else Int32(l);
    if p > SIZE - 21 - contentLen then SIZE - 21 - contentLen else p
  }

  /** What a configuration must satisfy. */
  predicate GoodSeed(t: Seed) {
    && Uint32Seed(t)
    && t.shortBound <= TWO31
    && (Int32(t.threshold) > 0 ==>
          && t.longBound + t.longBase <= TWO31
          && (t.longBase + 1 >= Int32(t.threshold) || t.longBase >= SIZE - 21))
  }

  ghost predicate NeverNegative(t: Seed)
    requires Uint32Seed(t)
  {
    forall c, long, l :: 0 <= c <= SIZE - 21 && 0 <= l < DrawBound(t, c, long) ==> PaddingLen(t, c, long, l) >= 0
  }

  /** Exactly the good seeds keep the padding length from going negative, which would make Extend
      panic: for all content lengths that can be padded, both padding modes and all draws. */
  lemma PaddingNeverNegative(t: Seed)
    requires Uint32Seed(t)
    ensures NeverNegative(t) <==> GoodSeed(t)
  {
    if GoodSeed(t) {
      forall c, long, l | 0 <= c <= SIZE - 21 && 0 <= l < DrawBound(t, c, long)
        ensures PaddingLen(t, c, long, l) >= 0
      {
        PaddingFits(t, c, long, l);
      }
    } else if t.shortBound > TWO31 {
      assert PaddingLen(t, 0, false, TWO31) < 0;
    } else if t.longBound + t.longBase > TWO31 {
      var l := if t.longBase >= TWO31 then 0 else TWO31 - t.longBase;
      assert PaddingLen(t, 0, true, l) < 0;
    } else {
      var c := if Int32(t.threshold) - 1 < SIZE - 21 then Int32(t.threshold) - 1 else SIZE - 21;
      assert PaddingLen(t, c, true, 0) < 0;
    }
  }

  lemma PaddingFits(t: Seed, c: int, long: bool, l: int)
    requires GoodSeed(t) && 0 <= c <= SIZE - 21 && 0 <= l < DrawBound(t, c, long)
    ensures 0 <= PaddingLen(t, c, long, l) <= SIZE - 21 - c
  {
  }

  /** The long padding hides how short the content was: at least up to the long base, or all that fits. */
  predicate Concealed(t: Seed, b: Block) {
    |b.content| < t.threshold < TWO31 ==>
      |b.padding| >= t.longBase - |b.content| || |b.content| + |b.padding| == SIZE - 21
  }

  /** The random part is below its bound, unless all that fits is taken. */
  predicate Modest(t: Seed, b: Block, longPadding: bool) {
    && |b.content| + |b.padding| <= SIZE - 21
    && (!longPadding || |b.content| >= t.threshold ==> |b.padding| < t.shortBound)
    && (longPadding && |b.content| < t.threshold < TWO31 ==>
          |b.content| + |b.padding| < t.longBase + t.longBound)
  }

  lemma PaddingConceals(t: Seed, b: Block, long: bool, l: int)
    requires GoodSeed(t) && |b.content| <= SIZE - 21 && 0 <= l < DrawBound(t, |b.content|, long)
    requires |b.padding| == PaddingLen(t, |b.content|, long, l)
    ensures long ==> Concealed(t, b)
    ensures Modest(t, b, long)
  {
  }

  /** The default seed is good; a seed whose long base is too small is not. */
  lemma SeedExamples()
    ensures GoodSeed(DEFAULT_SEED)
    ensures !NeverNegative(Seed(900, 500, 0, 256))
    ensures !NeverNegative(Seed(900, 500, 900, 0xFFFF_FFFF))
  {
    PaddingNeverNegative(Seed(900, 500, 0, 256));
    PaddingNeverNegative(Seed(900, 500, 900, 0xFFFF_FFFF));
  }

  /** A block on the wire: the command, two bytes of content length, two of padding length, content, padding. */
  lemma BlockLayout(b: Block)
    requires Fits(b)
    ensures var w := BlockBytes(b);
            var n := |b.content|;
            && |w| == 5 + n + |b.padding| && w[0] == b.command
            && 256 * (w[1] as int) + (w[2] as int) == n
            && 256 * (w[3] as int) + (w[4] as int) == |b.padding|
            && w[5..5 + n] == b.content && w[5 + n..] == b.padding
    ensures CONTINUE == 0 && END == 1 && DIRECT == 2
  {
    Uint16RoundTrip(|b.content|);
    Uint16RoundTrip(|b.padding|);
    hide PutUint16;
    assert BlockBytes(b)[1] == PutUint16(|b.content|)[0] && BlockBytes(b)[2] == PutUint16(|b.content|)[1];
    assert BlockBytes(b)[3] == PutUint16(|b.padding|)[0] && BlockBytes(b)[4] == PutUint16(|b.padding|)[1];
  }

  /** One padded block, behind the UUID if it has not been sent. It fits a buffer: no Write is cut
      short and Extend stays in bounds. */
  method XtlsPadding(content: seq<Byte>, command: Byte, userUUID: seq<Byte>, longPadding: bool, testseed: Seed)
    returns (newbuffer: seq<Byte>, ghost block: Block, ghost draw: int)
    requires GoodSeed(testseed) && |content| <= SIZE - 21 && |userUUID| <= UUID_LEN
    ensures block.command == command && block.content == content && Fits(block)
    ensures 0 <= draw < DrawBound(testseed, |content|, longPadding)
    ensures |block.padding| == PaddingLen(testseed, |content|, longPadding, draw)
    ensures newbuffer == userUUID + BlockBytes(block)
    ensures |newbuffer| <= SIZE
    ensures (longPadding ==> Concealed(testseed, block)) && Modest(testseed, block, longPadding)
  {
    var contentLen := |content|;
    var l :| 0 <= l < DrawBound(testseed, contentLen, longPadding);
    var paddingLen := PaddingLen(testseed, contentLen, longPadding, l);
    PaddingFits(testseed, contentLen, longPadding, l);
    draw := l;
    block := Block(command, content, Buf.Zeros(paddingLen));
    PaddingConceals(testseed, block, longPadding, l);
    newbuffer := Assemble(userUUID, [command] + PutUint16(contentLen) + PutUint16(paddingLen), content, paddingLen);
  }

  /** The three Writes and the Extend, in one fresh buffer. */
  method Assemble(userUUID: seq<Byte>, header: seq<Byte>, content: seq<Byte>, paddingLen: nat) returns (bytes: seq<Byte>)
    requires |userUUID| + |header| + |content| + paddingLen <= SIZE
    ensures bytes == userUUID + (header + content + Buf.Zeros(paddingLen))
  {
    var b := new Buf.Buffer.New();
    b.Append(userUUID);
    b.Append(header);
    b.Append(content);
    b.Extend(paddingLen);
    bytes := b.Bytes();
    assert bytes == [] + userUUID + header + content + Buf.Zeros(paddingLen);
  }
}
