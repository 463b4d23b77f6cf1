/** The reading half, and both ends together. */
module AuthReader {
  import opened Bytes
  import opened MultiBuffer
  import opened AuthStream
  import opened AuthWriter

  // ---------------------------------------------------------------- the reader

  /** A size that was read ahead of its chunk. */
  datatype Size = Size(size: nat, padding: nat)

  /** The reader's fields and the bytes that are still to come. */
  datatype Reader = Reader(pos: Pos, pending: Option<Size>, done: bool, rest: seq<Byte>)

  datatype Outcome = Soft | Eof | Fail | Got(plain: seq<Byte>)

  datatype Result = Result(reader: Reader, outcome: Outcome)

  /** A size, or the end of the input, or an error: input that breaks off, or a size that does not decode. */
  datatype SizeRead = Have(size: Size) | NoMore | Broken

  /** readSize: the size read ahead, or the next one, drawing a padding on the way. */
  function ReadSize(e: Env, r: Reader): (Reader, SizeRead) {
    if r.pending.Some? then (r.(pending := None), Have(r.pending.value))
    else if |r.rest| < e.shaper.sizeBytes then (r.(rest := []), if r.rest == [] then NoMore else Broken)
    else
      var padding := e.shaper.padding(r.pos.turn);
      var size := e.shaper.decode(r.pos.turn + 1, r.rest[..e.shaper.sizeBytes]);
      var r' := r.(pos := r.pos.(turn := r.pos.turn + 2), rest := r.rest[e.shaper.sizeBytes..]);
      (r', if size.Some? then Have(Size(size.value, padding)) else Broken)
  }

  /** How much of a chunk is opened; a size smaller than its padding counts back from the end. */
  function SealedPart(s: Size): (n: nat)
    ensures n <= s.size
  {
    if s.padding <= s.size then s.size - s.padding
    else if s.padding <= 2 * s.size then 2 * s.size - s.padding
    else 0
  }

  /** The chunk itself. Input that ends right before it is taken for the end. */
  function Unseal(e: Env, r: Reader, s: Size): Result {
    if |r.rest| < s.size then Result(r.(rest := []), if r.rest == [] then Eof else Fail)
    else
      var nonce := Increment(r.pos.nonce);
      var plain := e.aead.open(nonce, r.rest[..SealedPart(s)]);
      Result(r.(pos := r.pos.(nonce := nonce), rest := r.rest[s.size..]),
             if plain.Some? then Got(plain.value) else Fail)
  }

  /** readInternal, with `buffered` bytes at hand when it is called. */
  function ReadInternal(e: Env, r: Reader, soft: bool, buffered: nat): Result {
    var held := Min(buffered, |r.rest|);
    if soft && held < e.shaper.sizeBytes then Result(r, Soft)
    else if r.done then Result(r, Eof)
    else
      var (r1, s) := ReadSize(e, r);
      match s
      case NoMore => Result(r1, Eof)
      case Broken => Result(r1, Fail)
      case Have(size) =>
        if size.size == e.aead.overhead + size.padding then Result(r1.(done := true), Eof)
        else if soft && size.size > held - (|r.rest| - |r1.rest|) then Result(r1.(pending := Some(size)), Soft)
        else Unseal(e, r1, size)
  }

  /** The soft reads that follow the first: they stop at Soft and Eof. */
  datatype Batch = Batch(reader: Reader, out: seq<seq<Byte>>, failed: bool)

  function SoftReads(e: Env, r: Reader, schedule: seq<nat>): Batch
    decreases schedule
  {
    if schedule == [] then Batch(r, [], false)
    else
      var s := ReadInternal(e, r, true, schedule[0]);
      match s.outcome
      case Soft => Batch(s.reader, [], false)
      case Eof => Batch(s.reader, [], false)
      case Fail => Batch(s.reader, [], true)
      case Got(plain) =>
        var more := SoftReads(e, s.reader, schedule[1..]);
        Batch(more.reader, [plain] + more.out, more.failed)
  }

  datatype Status = Going | Ended | Failed

  datatype Session = Session(reader: Reader, out: seq<seq<Byte>>, status: Status)

  /** ReadMultiBuffer; schedule says how much is buffered at each of its soft reads. */
  function ReadCall(e: Env, r: Reader, schedule: seq<nat>): Session {
    var s := ReadInternal(e, r, false, 0);
    match s.outcome
    case Got(plain) =>
      var b := SoftReads(e, s.reader, schedule);
      if b.failed then Session(b.reader, [], Failed) else Session(b.reader, [plain] + b.out, Going)
    case Eof => Session(s.reader, [], Ended)
    case _ => Session(s.reader, [], Failed)
  }

  /** Calls until the first that reports the end or an error. */
  function ReadCalls(e: Env, r: Reader, calls: seq<seq<nat>>): Session
    decreases calls
  {
    if calls == [] then Session(r, [], Going)
    else
      var s := ReadCall(e, r, calls[0]);
      if s.status != Going then s
      else
        var more := ReadCalls(e, s.reader, calls[1..]);
        Session(more.reader, s.out + more.out, more.status)
  }

  class AuthenticationReader {
    const env: Env
    var pos: Pos
    var hasSize: bool
    var size: nat
    var paddingLen: nat
    var done: bool
    var rest: seq<Byte>

    function State(): Reader
      reads this
    {
      Reader(pos, if hasSize then Some(Size(size, paddingLen)) else None, done, rest)
    }

    constructor (env: Env, nonce: seq<Byte>, rest: seq<Byte>)
      ensures State() == Reader(Pos(0, nonce), None, false, rest) && this.env == env
    {
      this.env, pos, this.rest := env, Pos(0, nonce), rest;
      hasSize, size, paddingLen, done := false, 0, 0, false;
    }

    method NextSize() returns (s: SizeRead)
      modifies this
      ensures (State(), s) == ReadSize(env, old(State()))
    {
      if hasSize {
        hasSize := false;
        return Have(Size(size, paddingLen));
      }
      if |rest| < env.shaper.sizeBytes {
        s := if rest == [] then NoMore else Broken;
        rest := [];
        return;
      }
      var sizeBytes := rest[..env.shaper.sizeBytes];
      rest := rest[env.shaper.sizeBytes..];
      var padding := env.shaper.padding(pos.turn);
      var n := env.shaper.decode(pos.turn + 1, sizeBytes);
      pos := pos.(turn := pos.turn + 2);
      return if n.Some? then Have(Size(n.value, padding)) else Broken;
    }

    /** One chunk appended to mb: as a buffer of its own, or merged when it is larger than a buffer. */
    method OpenChunk(s: Size, mb: seq<Piece>) returns (outcome: Outcome, mb2: seq<Piece>)
      requires !hasSize
      modifies this
      ensures Result(State(), outcome) == Unseal(env, old(State()), s)
      ensures Data(mb2) == Data(mb) + if outcome.Got? then outcome.plain else []
    {
      if |rest| < s.size {
        outcome := if rest == [] then Eof else Fail;
        rest := [];
        return outcome, mb;
      }
      var sealed := rest[..SealedPart(s)];
      rest := rest[s.size..];
      pos := pos.(nonce := Increment(pos.nonce));
      var plain := env.aead.open(pos.nonce, sealed);
      if plain.None? {
        return Fail, mb;
      }
      if s.size <= SIZE {
        var p := Piece(plain.value, if |plain.value| <= SIZE then SIZE - |plain.value| else 0);
        DataSnoc(mb, p);
        mb2 := mb + [p];
      } else {
        mb2 := MergeBytes(mb, plain.value);
      }
      return Got(plain.value), mb2;
    }

    method TryRead(soft: bool, buffered: nat, mb: seq<Piece>) returns (outcome: Outcome, mb2: seq<Piece>)
      modifies this
      ensures Result(State(), outcome) == ReadInternal(env, old(State()), soft, buffered)
      ensures Data(mb2) == Data(mb) + if outcome.Got? then outcome.plain else []
    {
      hide Data, Unseal;
      mb2 := mb;
      var held, before := Min(buffered, |rest|), |rest|;
      if soft && held < env.shaper.sizeBytes {
        return Soft, mb;
      }
      if done {
        return Eof, mb;
      }
      var s := NextSize();
      if s.NoMore? {
        return Eof, mb;
      }
      if s.Broken? {
        return Fail, mb;
      }
      if s.size.size == env.aead.overhead + s.size.padding {
        done := true;
        return Eof, mb;
      }
      if soft && s.size.size > held - (before - |rest|) {
        size, paddingLen, hasSize := s.size.size, s.size.padding, true;
        return Soft, mb;
      }
      outcome, mb2 := OpenChunk(s.size, mb);
    }

    /** The loop of soft reads. */
    method SoftLoop(schedule: seq<nat>, mb: seq<Piece>) returns (failed: bool, mb2: seq<Piece>)
      modifies this
      ensures var b := SoftReads(env, old(State()), schedule);
              State() == b.reader && failed == b.failed && (!failed ==> Data(mb2) == Data(mb) + Flatten(b.out))
    {
      hide ReadInternal, Data;
      mb2 := mb;
      ghost var b := SoftReads(env, State(), schedule);
      for i := 0 to |schedule|
        invariant var c := SoftReads(env, State(), schedule[i..]);
                  && b.reader == c.reader && b.failed == c.failed
                  && Data(mb) + Flatten(b.out) == Data(mb2) + Flatten(c.out)
      {
        assert schedule[i..][1..] == schedule[i + 1..];
        var outcome;
        outcome, mb2 := TryRead(true, schedule[i], mb2);
        if outcome.Soft? || outcome.Eof? {
          return false, mb2;
        }
        if outcome.Fail? {
          return true, [];
        }
        ghost var c := SoftReads(env, State(), schedule[i + 1..]);
        assert ([outcome.plain] + c.out)[1..] == c.out;
      }
      return false, mb2;
    }

    /** One blocking read, then up to fifteen soft ones. */
    method ReadMultiBuffer(schedule: seq<nat>) returns (status: Status, mb: seq<Piece>)
      requires |schedule| == 15
      modifies this
      ensures var s := ReadCall(env, old(State()), schedule);
              State() == s.reader && status == s.status && (status.Going? ==> Data(mb) == Flatten(s.out))
    {
      hide ReadInternal, Data, SoftReads;
      var outcome;
      outcome, mb := TryRead(false, 0, []);
      NoPieces();
      if outcome.Eof? {
        return Ended, [];
      }
      if !outcome.Got? {
        return Failed, [];
      }
      ghost var out := SoftReads(env, State(), schedule).out;
      var failed, mb2 := SoftLoop(schedule, mb);
      assert ([outcome.plain] + out)[1..] == out;
      return if failed then Failed else Going, mb2;
    }
  }

  lemma NoPieces()
    ensures Data([]) == []
  {
  }

  // ---------------------------------------------------------------- both ends together

  function Len(e: Env, c: Chunk): nat {
    e.shaper.sizeBytes + ChunkSize(e, c)
  }

  ghost predicate Closed(cs: seq<Chunk>) {
    exists i :: 0 <= i < |cs| && cs[i].plain == []
  }

  /** How many chunks a reader gets from a stream that is cut after k bytes, and whether it takes
      the cut for the end. */
  datatype Fate = Fate(count: nat, clean: bool)

  function FateOf(e: Env, cs: seq<Chunk>, k: nat): (f: Fate)
    ensures f.count <= |cs|
    decreases cs
  {
    if cs == [] || k == 0 then Fate(0, true)
    else if k < e.shaper.sizeBytes then Fate(0, false)
    else if cs[0].plain == [] then Fate(0, true)
    else if k < Len(e, cs[0]) then Fate(0, k == e.shaper.sizeBytes)
    else
      var f := FateOf(e, cs[1..], k - Len(e, cs[0]));
      Fate(f.count + 1, f.clean)
  }

  /** The chunks sealed from position w on; anything may follow a terminator. */
  ghost function Stream(e: Env, w: Pos, cs: seq<Chunk>, junk: seq<Byte>): seq<Byte> {
    Wire(e, w, cs) + junk
  }

  /** The reader stands before chunk cs[0], which the writer sealed at position w, with or without its size
      read ahead; the stream is cut after k bytes. */
  ghost predicate Linked(e: Env, w: Pos, cs: seq<Chunk>, junk: seq<Byte>, k: nat, r: Reader) {
    && AllProper(e, w, cs) && (junk == [] || Closed(cs)) && k <= |Stream(e, w, cs, junk)| && !r.done
    && match r.pending
       case None => r.pos == w && r.rest == Stream(e, w, cs, junk)[..k]
       case Some(s) =>
         && cs != [] && cs[0].plain != [] && e.shaper.sizeBytes <= k
         && r.pos == Pos(w.turn + 2, w.nonce) && s == Size(ChunkSize(e, cs[0]), |cs[0].pad|)
         && r.rest == Stream(e, w, cs, junk)[e.shaper.sizeBytes..k]
  }

  lemma SizesDiffer(s: Shaper)
    requires CorrectShaper(s)
    ensures s.sizeBytes > 0
  {
    assert s.decode(0, s.encode(0, 0)) != s.decode(0, s.encode(0, 1));
    assert |s.encode(0, 0)| == s.sizeBytes && |s.encode(0, 1)| == s.sizeBytes;
  }

  /** The first chunk of a stream in its parts. */
  lemma StreamParts(e: Env, w: Pos, cs: seq<Chunk>, junk: seq<Byte>)
    requires Correct(e) && AllProper(e, w, cs) && cs != []
    ensures var s, n := Stream(e, w, cs, junk), e.shaper.sizeBytes;
            && |s| >= Len(e, cs[0]) && ChunkSize(e, cs[0]) < 65536
            && s[..n] == e.shaper.encode(w.turn + 1, ChunkSize(e, cs[0]))
            && s[n..Len(e, cs[0]) - |cs[0].pad|] == e.aead.seal(Increment(w.nonce), cs[0].plain)
            && s[Len(e, cs[0])..] == Stream(e, NextPos(w), cs[1..], junk)
  {
    hide Increment, CorrectAead, CorrectShaper;
    var code := e.shaper.encode(w.turn + 1, ChunkSize(e, cs[0]));
    var sealed := e.aead.seal(Increment(w.nonce), cs[0].plain);
    var later := Stream(e, NextPos(w), cs[1..], junk);
    StreamSplits(e, w, cs, junk);
    Sealing(e, w, cs[0]);
    hide Stream, AllProper;
    FourParts(code, sealed, cs[0].pad, later);
  }

  lemma StreamSplits(e: Env, w: Pos, cs: seq<Chunk>, junk: seq<Byte>)
    requires cs != []
    ensures Stream(e, w, cs, junk) ==
            e.shaper.encode(w.turn + 1, ChunkSize(e, cs[0])) + e.aead.seal(Increment(w.nonce), cs[0].plain) + cs[0].pad +
            Stream(e, NextPos(w), cs[1..], junk)
  {
    hide Increment;
    Regroup(ChunkBytes(e, w, cs[0]), Wire(e, NextPos(w), cs[1..]), junk);
  }

  lemma Sealing(e: Env, w: Pos, c: Chunk)
    requires Correct(e) && Proper(e, w, c)
    ensures ChunkSize(e, c) < 65536 && |e.shaper.encode(w.turn + 1, ChunkSize(e, c))| == e.shaper.sizeBytes
    ensures |e.aead.seal(Increment(w.nonce), c.plain)| == |c.plain| + e.aead.overhead
    ensures e.aead.open(Increment(w.nonce), e.aead.seal(Increment(w.nonce), c.plain)) == Some(c.plain)
  {
    hide Increment;
  }

  lemma FourParts(a: seq<Byte>, b: seq<Byte>, c: seq<Byte>, d: seq<Byte>)
    ensures var s := a + b + c + d;
            && |s| >= |a| + |b| + |c| && s[..|a|] == a && s[|a|..|a| + |b|] == b && s[|a| + |b| + |c|..] == d
  {
  }

  lemma SizeLinked(e: Env, w: Pos, cs: seq<Chunk>, junk: seq<Byte>, k: nat, r: Reader)
    requires Correct(e) && Linked(e, w, cs, junk, k, r)
    ensures var (r1, s) := ReadSize(e, r);
            if cs == [] || k == 0 then s == NoMore
            else if k < e.shaper.sizeBytes then s == Broken
            else
              && s == Have(Size(ChunkSize(e, cs[0]), |cs[0].pad|))
              && r1 == Reader(Pos(w.turn + 2, w.nonce), None, false, Stream(e, w, cs, junk)[e.shaper.sizeBytes..k])
  {
    hide CorrectAead;
    SizesDiffer(e.shaper);
    if cs == [] {
      assert Stream(e, w, cs, junk) == [];
    } else if r.pending.None? && k >= e.shaper.sizeBytes {
      StreamParts(e, w, cs, junk);
      var s, n := Stream(e, w, cs, junk), e.shaper.sizeBytes;
      hide Stream, AllProper;
      assert s[..k][..n] == s[..n] && s[..k][n..] == s[n..k];
    }
  }

  lemma UnsealLinked(e: Env, w: Pos, cs: seq<Chunk>, junk: seq<Byte>, k: nat, r: Reader)
    requires Correct(e) && AllProper(e, w, cs) && (junk == [] || Closed(cs)) && k <= |Stream(e, w, cs, junk)|
    requires cs != [] && cs[0].plain != [] && e.shaper.sizeBytes <= k
    requires r == Reader(Pos(w.turn + 2, w.nonce), None, false, Stream(e, w, cs, junk)[e.shaper.sizeBytes..k])
    ensures var u := Unseal(e, r, Size(ChunkSize(e, cs[0]), |cs[0].pad|));
            if k < Len(e, cs[0]) then u.outcome == if k == e.shaper.sizeBytes then Eof else Fail
            else u.outcome == Got(cs[0].plain) && Linked(e, NextPos(w), cs[1..], junk, k - Len(e, cs[0]), u.reader)
  {
    assert Proper(e, w, cs[0]) && AllProper(e, NextPos(w), cs[1..]);
    hide Stream, Increment, Closed, Correct, AllProper, Proper, Unseal;
    StreamParts(e, w, cs, junk);
    var s, n, m := Stream(e, w, cs, junk), e.shaper.sizeBytes, Len(e, cs[0]);
    if k >= m {
      ClosedLater(cs);
      Slices(s, n, m - |cs[0].pad|, m, k);
      UnsealWhole(e, w, cs[0], r);
    } else {
      UnsealShort(e, r, Size(ChunkSize(e, cs[0]), |cs[0].pad|));
    }
  }

  lemma UnsealWhole(e: Env, w: Pos, c: Chunk, r: Reader)
    requires Correct(e) && Proper(e, w, c) && r.pos == Pos(w.turn + 2, w.nonce) && |r.rest| >= ChunkSize(e, c)
    requires r.rest[..|c.plain| + e.aead.overhead] == e.aead.seal(Increment(w.nonce), c.plain)
    ensures Unseal(e, r, Size(ChunkSize(e, c), |c.pad|)) ==
            Result(r.(pos := NextPos(w), rest := r.rest[ChunkSize(e, c)..]), Got(c.plain))
  {
    Sealing(e, w, c);
    hide Increment, Correct, Proper;
  }

  lemma UnsealShort(e: Env, r: Reader, s: Size)
    requires |r.rest| < s.size
    ensures Unseal(e, r, s).outcome == if r.rest == [] then Eof else Fail
  {
  }

  lemma Slices(s: seq<Byte>, a: nat, b: nat, c: nat, k: nat)
    requires a <= b <= c <= k <= |s|
    ensures s[a..k][..b - a] == s[a..b] && s[a..k][c - a..] == s[c..][..k - c] && |s[a..k]| == k - a
  {
  }

  lemma ClosedLater(cs: seq<Chunk>)
    requires cs != [] && cs[0].plain != []
    ensures Closed(cs) ==> Closed(cs[1..])
  {
    if Closed(cs) {
      var i :| 0 <= i < |cs| && cs[i].plain == [];
      assert cs[1..][i - 1] == cs[i];
    }
  }

  /** One read: data comes out whole and in order; the terminator, the end of the input and a cut right
      behind a size are the end, any other cut is an error; a soft read that finds too little changes
      nothing that matters. */
  lemma ReadLinked(e: Env, w: Pos, cs: seq<Chunk>, junk: seq<Byte>, k: nat, r: Reader, soft: bool, buffered: nat)
    requires Correct(e) && Linked(e, w, cs, junk, k, r)
    ensures var s, f := ReadInternal(e, r, soft, buffered), FateOf(e, cs, k);
            match s.outcome
            case Soft => soft && Linked(e, w, cs, junk, k, s.reader)
            case Eof => f == Fate(0, true) && (soft ==> s.reader.done)
            case Fail => f == Fate(0, false) && !soft
            case Got(plain) =>
              && f.count > 0 && cs != [] && Len(e, cs[0]) <= k && plain == cs[0].plain
              && Linked(e, NextPos(w), cs[1..], junk, k - Len(e, cs[0]), s.reader)
  {
    SizesDiffer(e.shaper);
    hide CorrectAead, CorrectShaper, Unseal, ReadSize, Closed, AllProper;
    SizeLinked(e, w, cs, junk, k, r);
    var (r1, s) := ReadSize(e, r);
    if cs != [] && cs[0].plain != [] && e.shaper.sizeBytes <= k && s.Have? {
      UnsealLinked(e, w, cs, junk, k, r1);
    }
    hide Stream;
  }

  /** After j chunks: still linked, or past the terminator. */
  ghost predicate Advanced(e: Env, w: Pos, cs: seq<Chunk>, junk: seq<Byte>, k: nat, r: Reader, j: nat) {
    && j <= FateOf(e, cs, k).count && Used(e, cs, j) <= k
    && FateOf(e, cs[j..], k - Used(e, cs, j)) == Fate(FateOf(e, cs, k).count - j, FateOf(e, cs, k).clean)
    && (|| Linked(e, PosAfter(w, j), cs[j..], junk, k - Used(e, cs, j), r)
        || (r.done && FateOf(e, cs, k) == Fate(j, true)))
  }

  function Used(e: Env, cs: seq<Chunk>, j: nat): nat
    requires j <= |cs|
    decreases j
  {
    if j == 0 then 0 else Len(e, cs[0]) + Used(e, cs[1..], j - 1)
  }

  /** The reader that a read leaves behind, and what it may meet. */
  ghost predicate Reading(e: Env, w: Pos, cs: seq<Chunk>, junk: seq<Byte>, k: nat, r: Reader) {
    Linked(e, w, cs, junk, k, r) || (r.done && FateOf(e, cs, k) == Fate(0, true))
  }

  lemma FateStep(e: Env, cs: seq<Chunk>, k: nat)
    requires cs != [] && FateOf(e, cs, k).count > 0 && Len(e, cs[0]) <= k
    ensures var f := FateOf(e, cs[1..], k - Len(e, cs[0])); FateOf(e, cs, k) == Fate(f.count + 1, f.clean)
  {
  }

  lemma OneFurther(e: Env, w: Pos, cs: seq<Chunk>, j: nat)
    requires j < |cs|
    ensures cs[1..][j..] == cs[j + 1..] && Used(e, cs, j + 1) == Len(e, cs[0]) + Used(e, cs[1..], j)
    ensures PosAfter(w, j + 1) == PosAfter(NextPos(w), j)
  {
  }

  lemma AdvancedStep(e: Env, w: Pos, cs: seq<Chunk>, junk: seq<Byte>, k: nat, r: Reader, j: nat)
    requires cs != [] && FateOf(e, cs, k).count > 0 && Len(e, cs[0]) <= k
    requires Advanced(e, NextPos(w), cs[1..], junk, k - Len(e, cs[0]), r, j)
    ensures Advanced(e, w, cs, junk, k, r, j + 1)
  {
    hide Linked, FateOf, Used, PosAfter, Len;
    FateStep(e, cs, k);
    OneFurther(e, w, cs, j);
  }

  lemma AdvancedZero(e: Env, w: Pos, cs: seq<Chunk>, junk: seq<Byte>, k: nat, r: Reader)
    requires Reading(e, w, cs, junk, k, r)
    ensures Advanced(e, w, cs, junk, k, r, 0)
  {
    hide Linked;
    assert cs[0..] == cs;
  }

  lemma PlainsStep(cs: seq<Chunk>, j: nat)
    requires j < |cs|
    ensures Plains(cs[..j + 1]) == [cs[0].plain] + Plains(cs[1..][..j])
  {
  }

  lemma {:induction false} SoftLinked(e: Env, w: Pos, cs: seq<Chunk>, junk: seq<Byte>, k: nat, r: Reader,
                                      schedule: seq<nat>) returns (j: nat)
    requires Correct(e) && Reading(e, w, cs, junk, k, r)
    ensures var b := SoftReads(e, r, schedule);
            && !b.failed && j <= |cs| && Advanced(e, w, cs, junk, k, b.reader, j) && b.out == Plains(cs[..j])
    decreases schedule
  {
    hide Linked, Advanced, FateOf, Correct, Plains;
    j := 0;
    if schedule == [] {
      AdvancedZero(e, w, cs, junk, k, r);
      NoPlains(cs);
    } else if r.done {
      AdvancedZero(e, w, cs, junk, k, r);
      NoPlains(cs);
    } else {
      ReadLinked(e, w, cs, junk, k, r, true, schedule[0]);
      var s := ReadInternal(e, r, true, schedule[0]);
      hide ReadInternal;
      if s.outcome.Got? {
        var i := SoftLinked(e, NextPos(w), cs[1..], junk, k - Len(e, cs[0]), s.reader, schedule[1..]);
        AdvancedStep(e, w, cs, junk, k, SoftReads(e, s.reader, schedule[1..]).reader, i);
        PlainsStep(cs, i);
        j := i + 1;
      } else {
        AdvancedZero(e, w, cs, junk, k, s.reader);
        NoPlains(cs);
      }
    }
  }

  lemma LinkedOpen(e: Env, w: Pos, cs: seq<Chunk>, junk: seq<Byte>, k: nat, r: Reader)
    ensures Linked(e, w, cs, junk, k, r) ==> !r.done
  {
  }

  lemma NoPlains(cs: seq<Chunk>)
    ensures Plains(cs[..0]) == []
  {
  }

  /** One call: it stops exactly when no chunk is left, and otherwise takes at least one. */
  lemma CallLinked(e: Env, w: Pos, cs: seq<Chunk>, junk: seq<Byte>, k: nat, r: Reader, schedule: seq<nat>)
    returns (j: nat)
    requires Correct(e) && Reading(e, w, cs, junk, k, r)
    ensures var s, f := ReadCall(e, r, schedule), FateOf(e, cs, k);
            && j <= |cs| && s.out == Plains(cs[..j])
            && s.status == (if f.count > 0 then Going else if f.clean then Ended else Failed)
            && (if f.count > 0 then j > 0 && Advanced(e, w, cs, junk, k, s.reader, j) else j == 0)
  {
    hide Linked, Advanced, Correct, Plains;
    j := 0;
    NoPlains(cs);
    LinkedOpen(e, w, cs, junk, k, r);
    if !r.done {
      ReadLinked(e, w, cs, junk, k, r, false, 0);
      hide FateOf;
      var s := ReadInternal(e, r, false, 0);
      if s.outcome.Got? {
        hide ReadInternal;
        var i := SoftLinked(e, NextPos(w), cs[1..], junk, k - Len(e, cs[0]), s.reader, schedule);
        AdvancedStep(e, w, cs, junk, k, SoftReads(e, s.reader, schedule).reader, i);
        PlainsStep(cs, i);
        j := i + 1;
      }
    }
  }

  lemma {:induction false} CallsLinked(e: Env, w: Pos, cs: seq<Chunk>, junk: seq<Byte>, k: nat, r: Reader,
                                       calls: seq<seq<nat>>) returns (j: nat)
    requires Correct(e) && Reading(e, w, cs, junk, k, r)
    ensures var s, f := ReadCalls(e, r, calls), FateOf(e, cs, k);
            && j <= f.count && s.out == Plains(cs[..j])
            && (s.status == Going ==> |calls| <= j)
            && (s.status != Going ==> j == f.count && s.status == if f.clean then Ended else Failed)
    decreases calls
  {
    hide Linked, ReadCall, PosAfter, Correct, FateOf, Plains;
    j := 0;
    NoPlains(cs);
    if calls != [] {
      var i := CallLinked(e, w, cs, junk, k, r, calls[0]);
      var s := ReadCall(e, r, calls[0]);
      j := i;
      if s.status == Going {
        var m := CallsLinked(e, PosAfter(w, i), cs[i..], junk, k - Used(e, cs, i), s.reader, calls[1..]);
        PlainsConcat(cs, i, m);
        j := i + m;
      }
    }
  }

  lemma PlainsConcat(cs: seq<Chunk>, i: nat, m: nat)
    requires i + m <= |cs|
    ensures Plains(cs[..i + m]) == Plains(cs[..i]) + Plains(cs[i..][..m])
  {
  }

  /** A reader on a stream cut anywhere returns the plaintexts of the chunks before the cut, up to the
      terminator, whole and in order; by the next call it has told the end, or the error. */
  lemma CutStream(e: Env, start: Pos, cs: seq<Chunk>, junk: seq<Byte>, k: nat, calls: seq<seq<nat>>)
    requires Correct(e) && AllProper(e, start, cs) && (junk == [] || Closed(cs)) && k <= |Stream(e, start, cs, junk)|
    ensures var s, f := ReadCalls(e, Reader(start, None, false, Stream(e, start, cs, junk)[..k]), calls), FateOf(e, cs, k);
            && s.out <= Plains(cs[..f.count])
            && Flatten(s.out) <= Plain(cs[..f.count])
            && (s.status != Going ==> s.out == Plains(cs[..f.count]) && Flatten(s.out) == Plain(cs[..f.count]))
            && (s.status == Ended ==> f.clean) && (s.status == Failed ==> !f.clean)
            && (|calls| > f.count ==> s.status != Going)
  {
    hide ReadCalls, Plain, Plains, Correct, AllProper, Flatten, FateOf, Stream, Closed;
    var r := Reader(start, None, false, Stream(e, start, cs, junk)[..k]);
    var j := CallsLinked(e, start, cs, junk, k, r, calls);
    PlainsPrefix(cs, j, FateOf(e, cs, k).count);
  }

  /** Nothing cut: everything up to the first empty write, then the end. */
  lemma {:induction false} WholeFate(e: Env, w: Pos, cs: seq<Chunk>, junk: seq<Byte>)
    requires Correct(e) && AllProper(e, w, cs) && (junk == [] || Closed(cs))
    ensures FateOf(e, cs, |Stream(e, w, cs, junk)|) == Fate(FirstEmpty(Plains(cs)), true)
    decreases cs
  {
    if cs != [] {
      StreamParts(e, w, cs, junk);
      SizesDiffer(e.shaper);
      if cs[0].plain != [] {
        ClosedLater(cs);
        WholeFate(e, NextPos(w), cs[1..], junk);
        assert Plains(cs)[1..] == Plains(cs[1..]);
      }
    } else {
      assert Stream(e, w, cs, junk) == [];
    }
  }

  /** Round trip: whatever the writer sealed, and however much happened to be buffered at each soft read
      of each call, the reader returns the plaintexts up to the first empty write whole and in order and
      never fails; it reports the end only after all of them, and by the call after them at the latest. */
  lemma AuthRoundTrip(e: Env, start: Pos, cs: seq<Chunk>, junk: seq<Byte>, calls: seq<seq<nat>>)
    requires Correct(e) && AllProper(e, start, cs) && (junk == [] || Closed(cs))
    ensures var s, m := ReadCalls(e, Reader(start, None, false, Wire(e, start, cs) + junk), calls), FirstEmpty(Plains(cs));
            && s.status != Failed
            && s.out <= Plains(cs[..m])
            && Flatten(s.out) <= Plain(cs[..m])
            && (s.status == Ended ==> s.out == Plains(cs[..m]) && Flatten(s.out) == Plain(cs[..m]))
            && (|calls| > m ==> s.status == Ended)
  {
    hide ReadCalls, Plain, Plains, Correct, AllProper, Flatten, FateOf, Closed, FirstEmpty, Wire;
    var all := Stream(e, start, cs, junk);
    assert all == Wire(e, start, cs) + junk;
    assert all[..|all|] == all;
    hide Stream;
    WholeFate(e, start, cs, junk);
    CutStream(e, start, cs, junk, |all|, calls);
  }

  /** From the writes: a reader of what stream writes sent returns the bytes written up to the first empty
      write, then the end. */
  lemma WritesArrive(w: AuthenticationWriter, calls: seq<seq<nat>>)
    requires w.Valid() && w.Told()
    ensures var s := ReadCalls(w.env, Reader(w.start, None, false, w.sent), calls);
            && s.status != Failed
            && Flatten(s.out) <= Flatten(UpToEmpty(w.writes))
            && (s.status == Ended ==> Flatten(s.out) == Flatten(UpToEmpty(w.writes)))
            && (|calls| > |w.chunks| ==> s.status == Ended)
  {
    var m := FirstEmpty(Plains(w.chunks));
    assert Plains(w.chunks[..m]) == UpToEmpty(Plains(w.chunks));
    PlainsFlat(w.chunks[..m]);
    assert w.sent + [] == w.sent;
    hide ReadCalls, Plain, Plains, Correct, AllProper, Flatten, FirstEmpty, Wire, UpToEmpty;
    AuthRoundTrip(w.env, w.start, w.chunks, [], calls);
  }

  lemma PlainsPrefix(cs: seq<Chunk>, j: nat, m: nat)
    requires j <= m <= |cs|
    ensures Plains(cs[..j]) <= Plains(cs[..m]) && Flatten(Plains(cs[..j])) <= Plain(cs[..m])
    ensures Flatten(Plains(cs[..m])) == Plain(cs[..m])
  {
    assert Plains(cs[..m]) == Plains(cs[..j]) + Plains(cs[j..m]);
    PlainsFlat(cs[..m]);
    FlattenConcat(Plains(cs[..j]), Plains(cs[j..m]));
  }

  /** A cut that falls between two chunks, or right behind a size. */
  ghost predicate CutUnseen(e: Env, cs: seq<Chunk>, k: nat) {
    exists j :: 0 <= j <= |cs| && (k == Used(e, cs, j) || (j < |cs| && k == Used(e, cs, j) + e.shaper.sizeBytes))
  }

  /** Exactly these cuts of an unterminated stream pass for the end; every other cut is an error. */
  lemma {:induction false} CutUnseenExactly(e: Env, cs: seq<Chunk>, k: nat)
    requires Correct(e) && !Closed(cs) && k <= Used(e, cs, |cs|)
    ensures FateOf(e, cs, k).clean <==> CutUnseen(e, cs, k)
    decreases cs
  {
    SizesDiffer(e.shaper);
    hide Correct;
    if cs == [] || k == 0 {
      assert k == Used(e, cs, 0);
    } else {
      assert cs[0].plain != [];
      NotClosedLater(cs);
      if k < Len(e, cs[0]) {
        CutInFirst(e, cs, k);
      } else {
        CutUnseenExactly(e, cs[1..], k - Len(e, cs[0]));
        CutInLater(e, cs, k);
      }
    }
  }

  lemma NotClosedLater(cs: seq<Chunk>)
    requires cs != [] && !Closed(cs)
    ensures !Closed(cs[1..])
  {
    forall i | 0 <= i < |cs| - 1 ensures cs[1..][i].plain != [] {
      assert cs[1..][i] == cs[i + 1];
    }
  }

  lemma UsedGrows(e: Env, cs: seq<Chunk>, j: nat)
    requires 0 < j <= |cs|
    ensures Used(e, cs, j) >= Len(e, cs[0])
  {
  }

  lemma CutInFirst(e: Env, cs: seq<Chunk>, k: nat)
    requires cs != [] && 0 < k < Len(e, cs[0])
    ensures CutUnseen(e, cs, k) <==> k == e.shaper.sizeBytes
  {
    assert Used(e, cs, 0) == 0;
    forall j | 0 < j <= |cs| ensures Used(e, cs, j) >= Len(e, cs[0]) {
      UsedGrows(e, cs, j);
    }
  }

  lemma CutInLater(e: Env, cs: seq<Chunk>, k: nat)
    requires cs != [] && Len(e, cs[0]) <= k && e.shaper.sizeBytes < Len(e, cs[0])
    ensures CutUnseen(e, cs, k) <==> CutUnseen(e, cs[1..], k - Len(e, cs[0]))
  {
    var m := k - Len(e, cs[0]);
    if CutUnseen(e, cs, k) {
      var j :| 0 <= j <= |cs| && (k == Used(e, cs, j) || (j < |cs| && k == Used(e, cs, j) + e.shaper.sizeBytes));
      assert j > 0;
      assert m == Used(e, cs[1..], j - 1) || (j - 1 < |cs[1..]| && m == Used(e, cs[1..], j - 1) + e.shaper.sizeBytes);
    }
    if CutUnseen(e, cs[1..], m) {
      var j :| 0 <= j <= |cs[1..]| && (m == Used(e, cs[1..], j) || (j < |cs[1..]| && m == Used(e, cs[1..], j) + e.shaper.sizeBytes));
      assert k == Used(e, cs, j + 1) || (j + 1 < |cs| && k == Used(e, cs, j + 1) + e.shaper.sizeBytes);
    }
  }

  // ---------------------------------------------------------------- packets

  /** Sizes are not masked and paddings not drawn from a generator: a turn more or less makes no difference. */
  ghost predicate Stateless(s: Shaper) {
    && (forall t, u :: s.padding(t) == s.padding(u))
    && (forall t, u, n :: s.encode(t, n) == s.encode(u, n))
  }

  /** A reader in step with where the packets began gets exactly the packets that were sent, each by
      itself, if nothing was dropped, or if the shaper has no state to lose step with. */
  lemma PacketsArrive(e: Env, w: Pos, ps: seq<seq<Byte>>, cs: seq<Chunk>, calls: seq<seq<nat>>)
    requires Correct(e) && [] !in ps && Placed(e, Sends(e, w, ps), cs)
    requires AllFit(e, w.turn, ps) || Stateless(e.shaper)
    ensures AllFit(e, w.turn, ps) ==> Sends(e, w, ps).plains == ps
    ensures var d := Sends(e, w, ps);
            var s := ReadCalls(e, Reader(w, None, false, PlacedWire(e, d.places, cs)), calls);
            && s.status != Failed && s.out <= d.plains
            && (s.status == Ended ==> s.out == d.plains)
            && (|calls| > |d.plains| ==> s.status == Ended)
  {
    hide Sends, AllFit, Stateless, Proper, Correct, ReadCalls, PosAfter, Wire, PlacedWire, FirstEmpty, AllProper;
    SentAsInStep(e, w, ps, cs);
    SendsAll(e, w, ps);
    SentFrom(e, w, ps);
    FirstEmptyIs(Plains(cs), |cs|);
    assert cs[..|cs|] == cs;
    assert Wire(e, w, cs) + [] == Wire(e, w, cs);
    AuthRoundTrip(e, w, cs, [], calls);
  }

  lemma SentAsInStep(e: Env, w: Pos, ps: seq<seq<Byte>>, cs: seq<Chunk>)
    requires Placed(e, Sends(e, w, ps), cs) && (AllFit(e, w.turn, ps) || Stateless(e.shaper))
    ensures AllProper(e, w, cs) && PlacedWire(e, Sends(e, w, ps).places, cs) == Wire(e, w, cs)
  {
    hide Sends, AllFit, Stateless, Proper, PosAfter, ChunkBytes;
    var d := Sends(e, w, ps);
    SendsAll(e, w, ps);
    SendsPos(e, w, ps);
    forall i | 0 <= i < |cs| ensures AsAt(e, PosAfter(w, 0 + i), d.places[i], cs[i]) {
      TurnAfter(w, i);
      SameThere(e, d.places[i], PosAfter(w, i), cs[i]);
    }
    hide AsAt;
    assert [] + cs == cs;
    assert AllProper(e, w, []) && Wire(e, w, []) == [];
    hide AllProper, Wire, PlacedWire;
    PlacedInStep(e, w, [], d.places, cs);
  }

  lemma SameThere(e: Env, w: Pos, w': Pos, c: Chunk)
    requires Proper(e, w, c) && w.nonce == w'.nonce && (w.turn == w'.turn || Stateless(e.shaper))
    ensures AsAt(e, w', w, c)
  {
    if w.turn != w'.turn {
      var s := e.shaper;
      assert s.padding(w.turn) == s.padding(w'.turn);
      assert s.encode(w.turn + 1, ChunkSize(e, c)) == s.encode(w'.turn + 1, ChunkSize(e, c));
    }
  }

  /** Only packets are sent. */
  lemma {:induction false} SentFrom(e: Env, w: Pos, ps: seq<seq<Byte>>)
    ensures forall p :: p in Sends(e, w, ps).plains ==> p in ps
  {
    if ps != [] {
      SentFrom(e, w, ps[..|ps| - 1]);
    }
  }

  /** Sizes whose two bytes change places with every call. */
  function Flip(turn: nat, b: seq<Byte>): seq<Byte> {
    if |b| == 2 && turn % 2 == 0 then [b[1], b[0]] else b
  }

  /** A shaper with state: nothing encrypted, no padding, sizes flipped. */
  const FLIPPING := Env(Aead(0, (n, p) => p, (n, c) => Some(c)),
                        Shaper(2, 0, t => 0, (t, n) => Flip(t, if n < 65536 then PutUint16(n) else []),
                               (t, b) => if |b| == 2 then Some(Uint16(Flip(t, b))) else None))

  lemma FlippingCorrect()
    ensures Correct(FLIPPING)
  {
    forall t, n | n < 65536
      ensures |FLIPPING.shaper.encode(t, n)| == 2 && FLIPPING.shaper.decode(t, FLIPPING.shaper.encode(t, n)) == Some(n)
    {
      Uint16RoundTrip(n);
      hide PutUint16, Uint16;
      assert Flip(t, Flip(t, PutUint16(n))) == PutUint16(n);
    }
  }

  /** A packet of one byte as it is sealed at a turn. */
  lemma SevenAt(turn: nat)
    ensures ChunkBytes(FLIPPING, Pos(turn, []), Chunk([7], [])) == Flip(turn + 1, [0, 1]) + [7]
  {
    assert PutUint16(1) == [0, 1];
  }

  lemma ReadSeven(code: seq<Byte>)
    requires |code| == 2
    ensures var r := Reader(Pos(0, []), None, false, code + [7]);
            && (code == [0, 1] ==> ReadInternal(FLIPPING, r, false, 0).outcome == Got([7]))
            && (code == [1, 0] ==> ReadInternal(FLIPPING, r, false, 0).outcome == Fail)
  {
    var s := code + [7];
    assert s[..2] == code && s[2..] == [7];
  }

  /** One packet too large, then one of a single byte: the small one is sealed a turn late, and a
      reader fails on it. In step it would have been read. */
  lemma DroppedPacketExample(big: seq<Byte>)
    requires |big| == SIZE
    ensures Correct(FLIPPING)
    ensures var w := Pos(0, []);
            var d := Sends(FLIPPING, w, [big, [7]]);
            && d.plains == [[7]] && d.places == [Pos(1, [])]
            && ReadCall(FLIPPING, Reader(w, None, false, ChunkBytes(FLIPPING, Pos(1, []), Chunk([7], []))), []).status == Failed
            && ReadCall(FLIPPING, Reader(w, None, false, ChunkBytes(FLIPPING, w, Chunk([7], []))), []).out == [[7]]
  {
    FlippingCorrect();
    SevenAt(0);
    SevenAt(1);
    ReadSeven([1, 0]);
    ReadSeven([0, 1]);
    BigThenSeven(big);
    hide ReadInternal, ChunkBytes, Correct;
  }

  lemma BigThenSeven(big: seq<Byte>)
    requires |big| == SIZE
    ensures Sends(FLIPPING, Pos(0, []), [big, [7]]) == Sent([Pos(1, [])], [[7]], NextPos(Pos(1, [])))
  {
    assert [big, [7]][..1] == [big] && [big][..0] == [];
    assert Sends(FLIPPING, Pos(0, []), [big]) == Sent([], [], Pos(1, []));
  }
}
