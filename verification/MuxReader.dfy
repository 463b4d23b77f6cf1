/** Reading chunks and packets from a link that delivers its bytes in any pieces. */
module MuxReader {
  import opened Bytes
  import opened MultiBuffer

  /** buf.BufferedReader over a link. */
  class BufferedReader {
    var buffer: seq<seq<Byte>>
    /** What the link's next reads return; after the last one it reports EOF. */
    var incoming: seq<seq<seq<Byte>>>

    ghost predicate Valid()
      reads this
    {
      Bounded(buffer) && forall i | 0 <= i < |incoming| :: Bounded(incoming[i])
    }

    ghost function Pending(): seq<Byte>
      reads this
    {
      Flatten(buffer) + Flatten(Flatten(incoming))
    }

    /** An upper bound on the reads still to come. */
    ghost function Work(): nat
      reads this
    {
      |Pending()| + |buffer| + |Flatten(incoming)| + |incoming|
    }

    constructor (pieces: seq<seq<seq<Byte>>>)
      requires forall i | 0 <= i < |pieces| :: Bounded(pieces[i])
      ensures Valid() && Pending() == Flatten(Flatten(pieces))
      ensures incoming == pieces
    {
      buffer, incoming := [], pieces;
    }

    /** The link's ReadMultiBuffer. */
    method Receive() returns (mb: seq<seq<Byte>>)
      requires Valid() && incoming != []
      modifies this`incoming
      ensures Valid() && Bounded(mb) && incoming == old(incoming)[1..]
      ensures Flatten(Flatten(old(incoming))) == Flatten(mb) + Flatten(Flatten(incoming))
      ensures |Flatten(old(incoming))| == |mb| + |Flatten(incoming)|
    {
      mb := incoming[0];
      FlattenConcat(mb, Flatten(incoming[1..]));
      incoming := incoming[1..];
    }

    /** io.Reader.Read; nothing at EOF. */
    method Read(n: nat) returns (r: Option<seq<Byte>>)
      requires Valid()
      modifies this
      ensures Valid()
      ensures r.Some? ==> |r.value| <= n && r.value + Pending() == old(Pending())
      ensures Work() <= old(Work()) && (r.Some? && n > 0 ==> Work() < old(Work()))
      ensures r.None? ==> old(Pending()) == [] && Pending() == []
    {
      hide Flatten, Bounded, LeftOf;
      Nothing();
      ghost var before := Pending();
      if Flatten(buffer) != [] {
        var left, bytes := SplitBytes(buffer, n);
        Parts(buffer, left, bytes, n);
        assert bytes + Flatten(left) + Flatten(Flatten(incoming)) == before;
        buffer := if Flatten(left) == [] then [] else left;
        return Some(bytes);
      }
      if incoming == [] {
        NoneIncoming();
        return None;
      }
      var mb := Receive();
      var left, bytes := SplitBytes(mb, n);
      Parts(mb, left, bytes, n);
      assert bytes + Flatten(left) + Flatten(Flatten(incoming)) == before;
      if Flatten(left) != [] {
        buffer := left;
      }
      r := Some(bytes);
    }

    /** io.ReadFull: `short` when some but not enough bytes were left. */
    method ReadFull(n: nat) returns (r: Option<seq<Byte>>, short: bool)
      requires Valid()
      modifies this
      ensures Valid()
      ensures r.Some? <==> n <= |old(Pending())|
      ensures r.Some? ==> r.value == old(Pending())[..n] && Pending() == old(Pending())[n..]
      ensures r.None? ==> Pending() == [] && (short <==> old(Pending()) != [])
      ensures Work() <= old(Work())
    {
      hide Flatten, Bounded;
      var got: seq<Byte> := [];
      short := false;
      while |got| < n
        invariant Valid() && |got| <= n
        invariant got + Pending() == old(Pending()) && Work() <= old(Work())
        decreases Work()
      {
        var more := Read(n - |got|);
        if more.None? {
          return None, |got| > 0;
        }
        assert got + more.value + Pending() == old(Pending());
        got := got + more.value;
      }
      r := Some(got);
    }

    /** At most `size` bytes of what is buffered, after one read from the link if nothing is. */
    method ReadAtMost(size: nat) returns (r: Option<seq<seq<Byte>>>)
      requires Valid() && size > 0
      modifies this
      ensures Valid()
      ensures r.Some? ==> |Flatten(r.value)| <= size && Flatten(r.value) + Pending() == old(Pending())
      ensures r.Some? ==> Work() < old(Work())
      ensures r.None? ==> old(Pending()) == [] && Pending() == [] && Work() <= old(Work())
    {
      hide Flatten, Bounded;
      Nothing();
      ghost var before := Pending();
      if Flatten(buffer) == [] {
        if incoming == [] {
          NoneIncoming();
          return None;
        }
        buffer := Receive();
      }
      var left, mb := SplitSize(buffer, size);
      assert Flatten(mb) + Flatten(left) + Flatten(Flatten(incoming)) == before;
      buffer := if Flatten(left) == [] then [] else left;
      r := Some(mb);
    }
  }

  lemma Nothing()
    ensures Flatten<Byte>([]) == [] && Bounded([])
  {
  }

  lemma NoneIncoming()
    ensures Flatten(Flatten<seq<Byte>>([])) == []
  {
  }

  /** The pieces of a split buffer list are no larger than the list's. */
  lemma Parts(mb: seq<seq<Byte>>, left: seq<seq<Byte>>, bytes: seq<Byte>, n: nat)
    requires Bounded(mb) && bytes + Flatten(left) == Flatten(mb) && |bytes| == Min(n, |Flatten(mb)|)
    requires LeftOf(left, mb)
    ensures Bounded(left) && |left| <= |mb|
    ensures n > 0 && Flatten(mb) != [] ==> bytes != []
  {
  }

  /** How many bytes a stream of chunks holds for its reader, and what comes after. */
  datatype Decoded = Decoded(data: seq<Byte>, rest: seq<Byte>, ok: bool)

  /**
   * The meaning of a stream of chunks: `left` bytes of the current chunk are due, and `budget`
   * more chunks may be opened (any number, if absent).
   */
  function Decode(s: seq<Byte>, left: nat, budget: Option<nat>): Decoded
    decreases |s|, left
  {
    if left > 0 then
      if |s| < left then Decoded(s, [], true)
      else
        var d := Decode(s[left..], 0, budget);
        Decoded(s[..left] + d.data, d.rest, d.ok)
    else if budget == Some(0) then Decoded([], s, true)
    else if |s| < 2 then Decoded([], [], |s| == 0)
    else
      var n := Word(s[0], s[1]);
      if n == 0 then Decoded([], s[2..], true)
      else Decode(s[2..], n, if budget.None? then None else Some(budget.value - 1))
  }

  /** Part of a chunk can be taken at a time. */
  lemma DecodeTake(s: seq<Byte>, left: nat, budget: Option<nat>, j: nat)
    requires 0 < left && j <= left && j <= |s|
    ensures var d := Decode(s[j..], left - j, budget);
            Decode(s, left, budget) == Decoded(s[..j] + d.data, d.rest, d.ok)
  {
    if j < left {
      if |s| < left {
        assert s == s[..j] + s[j..];
      } else {
        assert s[j..][left - j..] == s[left..];
        assert s[..left] == s[..j] + s[j..][..left - j];
      }
    }
  }

  lemma NothingLeft(left: nat, budget: Option<nat>)
    requires left > 0
    ensures Decode([], left, budget) == Decoded([], [], true)
  {
  }

  datatype ChunkRead = Got(mb: seq<seq<Byte>>) | Eof | Failed

  /** crypto.ChunkStreamReader with plain two-byte sizes. */
  class ChunkStreamReader {
    const reader: BufferedReader
    const maxNumChunk: nat
    var leftOverSize: nat
    var numChunk: nat

    constructor (r: BufferedReader, max: nat)
      ensures reader == r && maxNumChunk == max && leftOverSize == 0 && numChunk == 0
    {
      reader, maxNumChunk, leftOverSize, numChunk := r, max, 0, 0;
    }

    ghost predicate Valid()
      reads this, reader
    {
      reader.Valid() && leftOverSize < 65536
    }

    /** The chunks that may still be opened. */
    function Budget(): Option<nat>
      reads this
    {
      if maxNumChunk == 0 then None else Some(if numChunk < maxNumChunk then maxNumChunk - numChunk else 0)
    }

    ghost function Ahead(): Decoded
      reads this, reader
    {
      Decode(reader.Pending(), leftOverSize, Budget())
    }

    /** Opens the next chunk; nothing when there is none. */
    method OpenChunk() returns (r: ChunkRead)
      requires Valid() && leftOverSize == 0
      modifies this, reader
      ensures Valid() && reader.Work() <= old(reader.Work())
      ensures r.Got? ==> r.mb == [] && leftOverSize > 0 && Ahead() == old(Ahead())
      ensures r.Eof? ==> old(Ahead()) == Decoded([], reader.Pending(), true)
      ensures r.Failed? ==> old(Ahead()) == Decoded([], reader.Pending(), false)
    {
      ghost var s, b := reader.Pending(), Budget();
      numChunk := numChunk + 1;
      if maxNumChunk > 0 && numChunk > maxNumChunk {
        return Eof;
      }
      assert b != Some(0) && Budget() == if b.None? then None else Some(b.value - 1);
      var two, short := reader.ReadFull(2);
      if two.None? {
        return if short then Failed else Eof;
      }
      assert Word(s[0], s[1]) == Uint16(two.value);
      if Uint16(two.value) == 0 {
        return Eof;
      }
      leftOverSize := Uint16(two.value);
      r := Got([]);
    }

    /** Takes what is at hand of the current chunk. */
    method ReadOn() returns (r: ChunkRead)
      requires Valid() && leftOverSize > 0
      modifies this, reader
      ensures Valid()
      ensures r.Got? ==> reader.Work() < old(reader.Work())
      ensures r.Got? ==> old(Ahead()) == Decoded(Flatten(r.mb) + Ahead().data, Ahead().rest, Ahead().ok)
      ensures !r.Got? ==> r.Eof? && old(Ahead()) == Decoded([], reader.Pending(), true)
    {
      hide Decode, Flatten;
      ghost var s, left := reader.Pending(), leftOverSize;
      var mb := reader.ReadAtMost(leftOverSize);
      if mb.None? {
        NothingLeft(left, Budget());
        return Eof;
      }
      ghost var j := |Flatten(mb.value)|;
      assert Flatten(mb.value) == s[..j] && reader.Pending() == s[j..];
      DecodeTake(s, left, Budget(), j);
      leftOverSize := leftOverSize - |Flatten(mb.value)|;
      r := Got(mb.value);
    }

    method ReadMultiBuffer() returns (r: ChunkRead)
      requires Valid()
      modifies this, reader
      ensures Valid()
      ensures r.Got? ==> reader.Work() < old(reader.Work())
      ensures r.Got? ==> old(Ahead()) == Decoded(Flatten(r.mb) + Ahead().data, Ahead().rest, Ahead().ok)
      ensures r.Eof? ==> old(Ahead()) == Decoded([], reader.Pending(), true)
      ensures r.Failed? ==> old(Ahead()) == Decoded([], reader.Pending(), false)
    {
      hide Decode, Flatten;
      if leftOverSize == 0 {
        r := OpenChunk();
        if !r.Got? {
          return;
        }
      }
      r := ReadOn();
    }
  }

  datatype CopyResult = Copied | ReadFailed | WriteFailed

  /**
   * buf.Copy from a chunk reader. `written` is what the output accepted; an output with a limit
   * breaks after that many writes, and what it was given then is lost.
   */
  method Copy(rr: ChunkStreamReader, limit: Option<nat>) returns (written: seq<Byte>, o: CopyResult)
    requires rr.Valid()
    modifies rr, rr.reader
    ensures rr.Valid()
    ensures o.Copied? ==> old(rr.Ahead()) == Decoded(written, rr.reader.Pending(), true)
    ensures o.ReadFailed? ==> old(rr.Ahead()) == Decoded(written, rr.reader.Pending(), false)
    ensures o.WriteFailed? ==> limit.Some? && Interrupted(old(rr.Ahead()), written, rr.Ahead())
  {
    hide Decode, Flatten;
    written := [];
    var left := limit;
    while true
      invariant rr.Valid() && (left.Some? ==> limit.Some?)
      invariant old(rr.Ahead()) == Decoded(written + rr.Ahead().data, rr.Ahead().rest, rr.Ahead().ok)
      decreases rr.reader.Work()
    {
      var r := rr.ReadMultiBuffer();
      if r.Eof? {
        return written, Copied;
      }
      if r.Failed? {
        return written, ReadFailed;
      }
      assert written + (Flatten(r.mb) + rr.Ahead().data) == written + Flatten(r.mb) + rr.Ahead().data;
      if Flatten(r.mb) != [] && left.Some? {
        if left.value == 0 {
          return written, WriteFailed;
        }
        left := Some(left.value - 1);
      }
      written := written + Flatten(r.mb);
    }
  }

  /** After a failed write: a prefix was written, and the reader still ends where it would have. */
  ghost predicate Interrupted(before: Decoded, written: seq<Byte>, now: Decoded) {
    written <= before.data && now.rest == before.rest && now.ok == before.ok
  }

  /** What a frame's one chunk holds. */
  function OneChunk(s: seq<Byte>): Decoded {
    Decode(s, 0, Some(1))
  }

  /** A whole chunk in front: exactly it is taken. */
  lemma WholeChunk(data: seq<Byte>, rest: seq<Byte>)
    requires |data| < 65536
    ensures OneChunk(PutUint16(|data|) + data + rest) == Decoded(data, rest, true)
  {
    var s := PutUint16(|data|) + data + rest;
    Uint16RoundTrip(|data|);
    assert s[2..] == data + rest;
    if data != [] {
      assert Decode(s, 0, Some(1)) == Decode(data + rest, |data|, Some(0));
      assert (data + rest)[..|data|] == data && (data + rest)[|data|..] == rest;
      assert Decode(rest, 0, Some(0)) == Decoded([], rest, true);
    }
  }

  /** NewStreamReader, copied to a session's output; after a failed write the rest is discarded. */
  method CopyStream(reader: BufferedReader, limit: Option<nat>) returns (written: seq<Byte>, closed: bool, ok: bool)
    requires reader.Valid()
    modifies reader
    ensures reader.Valid()
    ensures reader.Pending() == OneChunk(old(reader.Pending())).rest && ok == OneChunk(old(reader.Pending())).ok
    ensures written <= OneChunk(old(reader.Pending())).data
    ensures !closed ==> written == OneChunk(old(reader.Pending())).data
    ensures closed ==> limit.Some?
  {
    hide Decode;
    var rr := new ChunkStreamReader(reader, 1);
    var o;
    written, o := Copy(rr, limit);
    closed := o.WriteFailed?;
    if closed {
      var _, again := Copy(rr, None);
      o := again;
    }
    ok := o.Copied?;
  }

  // ----- packets -----

  /** A packet is taken whole or not at all. */
  function OnePacket(s: seq<Byte>): Decoded {
    if |s| < 2 then Decoded([], [], |s| == 0)
    else
      var n := Word(s[0], s[1]);
      if n > SIZE then Decoded([], s[2..], false)
      else if |s| < 2 + n then Decoded([], [], |s| == 2)
      else Decoded(s[2..2 + n], s[2 + n..], true)
  }

  lemma WholePacket(data: seq<Byte>, rest: seq<Byte>)
    requires |data| <= SIZE
    ensures OnePacket(PutUint16(|data|) + data + rest) == Decoded(data, rest, true)
  {
    var s := PutUint16(|data|) + data + rest;
    Uint16RoundTrip(|data|);
    assert s[2..2 + |data|] == data && s[2 + |data|..] == rest;
  }

  class PacketReader {
    const reader: BufferedReader
    var eof: bool

    constructor (r: BufferedReader)
      ensures reader == r && !eof
    {
      reader, eof := r, false;
    }

    method ReadMultiBuffer() returns (r: ChunkRead)
      requires reader.Valid()
      modifies this, reader
      ensures reader.Valid()
      ensures old(eof) ==> r.Eof? && reader.Pending() == old(reader.Pending())
      ensures !old(eof) ==>
                var d := OnePacket(old(reader.Pending()));
                reader.Pending() == d.rest && (r.Failed? <==> !d.ok) &&
                (r.Got? ==> eof && r.mb == [d.data]) && (!r.Got? ==> d.data == [])
    {
      if eof {
        return Eof;
      }
      ghost var s := reader.Pending();
      var two, short := reader.ReadFull(2);
      if two.None? {
        return if short then Failed else Eof;
      }
      assert Word(s[0], s[1]) == Uint16(two.value);
      var size := Uint16(two.value);
      if size > SIZE {
        return Failed;
      }
      var b, cut := reader.ReadFull(size);
      if b.None? {
        return if cut then Failed else Eof;
      }
      eof := true;
      assert b.value == s[2..2 + size] && reader.Pending() == s[2 + size..];
      r := Got([b.value]);
    }
  }

  /** The same for a packet session: one packet, then EOF. */
  method CopyPacket(reader: BufferedReader, limit: Option<nat>) returns (written: seq<Byte>, closed: bool, ok: bool)
    requires reader.Valid()
    modifies reader
    ensures reader.Valid()
    ensures reader.Pending() == OnePacket(old(reader.Pending())).rest && ok == OnePacket(old(reader.Pending())).ok
    ensures written == if closed then [] else OnePacket(old(reader.Pending())).data
    ensures closed <==> limit == Some(0) && OnePacket(old(reader.Pending())).data != []
  {
    hide OnePacket;
    var rr := new PacketReader(reader);
    written, closed := [], false;
    var r := rr.ReadMultiBuffer();
    if r.Got? {
      closed := limit == Some(0) && r.mb[0] != [];
      written := if closed then [] else r.mb[0];
      r := rr.ReadMultiBuffer();
    }
    ok := !r.Failed?;
  }
}
