/** Writing a stream as sized chunks, and reading it back. */
module ChunkStream {
  import opened Bytes
  import opened MultiBuffer
  import opened MuxReader

  function ChunkBytes(c: seq<Byte>): seq<Byte>
    requires |c| < 65536
  {
    PutUint16(|c|) + c
  }

  ghost predicate Small(chunks: seq<seq<Byte>>) {
    forall i | 0 <= i < |chunks| :: |chunks[i]| <= SIZE
  }

  ghost predicate NoneEmpty(chunks: seq<seq<Byte>>) {
    forall i | 0 <= i < |chunks| :: chunks[i] != []
  }

  function ChunksBytes(chunks: seq<seq<Byte>>): seq<Byte>
    requires Small(chunks)
  {
    if chunks == [] then [] else ChunkBytes(chunks[0]) + ChunksBytes(chunks[1..])
  }

  lemma {:induction false} ChunksSnoc(chunks: seq<seq<Byte>>, c: seq<Byte>)
    requires Small(chunks) && |c| <= SIZE
    ensures Small(chunks + [c]) && ChunksBytes(chunks + [c]) == ChunksBytes(chunks) + ChunkBytes(c)
  {
    if chunks == [] {
      assert [c][1..] == [] && chunks + [c] == [c];
      assert ChunksBytes([c]) == ChunkBytes(c) + ChunksBytes([]);
    } else {
      assert (chunks + [c])[1..] == chunks[1..] + [c];
      ChunksSnoc(chunks[1..], c);
    }
  }

  /**
   * ChunkStreamWriter.WriteMultiBuffer: chunks of at most 8192 bytes with the same content in the
   * same order; a chunk of size zero, which ends the stream for the reader, exactly when there is
   * nothing to write.
   */
  method WriteMultiBuffer(mb: seq<seq<Byte>>) returns (out: seq<Byte>, chunks: seq<seq<Byte>>)
    requires Bounded(mb)
    ensures Small(chunks) && out == ChunksBytes(chunks) && Flatten(chunks) == Flatten(mb)
    ensures if Flatten(mb) == [] then chunks == [[]] else NoneEmpty(chunks)
  {
    hide Flatten, Bounded, ChunksBytes, ChunkBytes;
    var rest, slice := SplitSize(mb, SIZE);
    Single(Flatten(slice));
    chunks, out := [Flatten(slice)], ChunkBytes(Flatten(slice));
    while Flatten(rest) != []
      invariant Bounded(rest) && Small(chunks) && out == ChunksBytes(chunks)
      invariant Flatten(chunks) + Flatten(rest) == Flatten(mb)
      invariant Flatten(mb) != [] ==> NoneEmpty(chunks)
      invariant Flatten(mb) == [] ==> chunks == [[]]
      decreases |Flatten(rest)|
    {
      ghost var was := rest;
      rest, slice := SplitSize(rest, SIZE);
      assert Flatten(chunks) + Flatten(slice) + Flatten(rest) == Flatten(chunks) + Flatten(was);
      FlattenSnoc(chunks, Flatten(slice));
      ChunksSnoc(chunks, Flatten(slice));
      chunks, out := chunks + [Flatten(slice)], out + ChunkBytes(Flatten(slice));
    }
  }

  lemma Single(c: seq<Byte>)
    requires |c| <= SIZE
    ensures Small([c]) && ChunksBytes([c]) == ChunkBytes(c) && Flatten([c]) == c
  {
    ChunksSnoc([], c);
    assert [] + [c] == [c];
    assert ChunksBytes([]) == [];
    FlattenOne(c);
  }

  /** Reading chunks back, up to where the stream stands at `rest`. */
  lemma {:induction false} DecodeChunks(chunks: seq<seq<Byte>>, rest: seq<Byte>)
    requires Small(chunks) && NoneEmpty(chunks)
    ensures var d := Decode(rest, 0, None);
            Decode(ChunksBytes(chunks) + rest, 0, None) == Decoded(Flatten(chunks) + d.data, d.rest, d.ok)
  {
    hide Decode, PutUint16;
    if chunks == [] {
      assert ChunksBytes(chunks) + rest == rest;
      assert Flatten(chunks) + Decode(rest, 0, None).data == Decode(rest, 0, None).data;
    } else {
      var c, more := chunks[0], ChunksBytes(chunks[1..]) + rest;
      DecodeChunks(chunks[1..], rest);
      var s := ChunksBytes(chunks) + rest;
      assert s == PutUint16(|c|) + c + more;
      DecodeOne(c, more);
      var d := Decode(rest, 0, None);
      assert c + (Flatten(chunks[1..]) + d.data) == c + Flatten(chunks[1..]) + d.data;
    }
  }

  lemma DecodeOne(c: seq<Byte>, more: seq<Byte>)
    requires 0 < |c| <= SIZE
    ensures var d := Decode(more, 0, None);
            Decode(PutUint16(|c|) + c + more, 0, None) == Decoded(c + d.data, d.rest, d.ok)
  {
    var s := PutUint16(|c|) + c + more;
    Uint16RoundTrip(|c|);
    assert s[2..] == c + more;
    assert (c + more)[..|c|] == c && (c + more)[|c|..] == more;
    assert Decode(s, 0, None) == Decode(c + more, |c|, None);
  }

  lemma {:induction false} ChunksConcat(a: seq<seq<Byte>>, b: seq<seq<Byte>>)
    requires Small(a) && Small(b)
    ensures Small(a + b) && ChunksBytes(a + b) == ChunksBytes(a) + ChunksBytes(b)
  {
    hide ChunkBytes;
    if a == [] {
      assert a + b == b;
    } else {
      assert (a + b)[1..] == a[1..] + b;
      ChunksConcat(a[1..], b);
      Regroup(ChunkBytes(a[0]), ChunksBytes(a[1..]), ChunksBytes(b));
    }
  }

  /** A terminated stream gives back every byte before its first empty chunk and leaves what follows that. */
  lemma ChunkStreamRoundTrip(chunks: seq<seq<Byte>>, m: nat, rest: seq<Byte>)
    requires Small(chunks) && m < |chunks| && chunks[m] == [] && NoneEmpty(chunks[..m])
    ensures Small(chunks[m + 1..])
    ensures Decode(ChunksBytes(chunks) + rest, 0, None) ==
            Decoded(Flatten(chunks[..m]), ChunksBytes(chunks[m + 1..]) + rest, true)
  {
    hide Decode, ChunksBytes, Flatten;
    var before, after := chunks[..m], chunks[m + 1..];
    var stop: seq<seq<Byte>> := [[]];
    assert chunks == before + (stop + after);
    ChunksConcat(stop, after);
    ChunksConcat(before, stop + after);
    DecodeEnd(stop, ChunksBytes(after) + rest);
    Regroup(ChunksBytes(before), ChunksBytes(stop + after), rest);
    Regroup(ChunksBytes(stop), ChunksBytes(after), rest);
    DecodeChunks(before, ChunksBytes(stop) + (ChunksBytes(after) + rest));
    assert Flatten(before) + [] == Flatten(before);
  }

  /** An unterminated stream gives back every byte. */
  lemma UnterminatedRoundTrip(chunks: seq<seq<Byte>>)
    requires Small(chunks) && NoneEmpty(chunks)
    ensures Decode(ChunksBytes(chunks), 0, None) == Decoded(Flatten(chunks), [], true)
  {
    hide Decode;
    DecodeChunks(chunks, []);
    DecodeZero([]);
    assert ChunksBytes(chunks) + [] == ChunksBytes(chunks);
    assert Flatten(chunks) + [] == Flatten(chunks);
  }

  lemma DecodeEnd(stop: seq<seq<Byte>>, rest: seq<Byte>)
    requires stop == [[]]
    ensures Small(stop) && Decode(ChunksBytes(stop) + rest, 0, None) == Decoded([], rest, true)
  {
    hide Decode;
    Single([]);
    var end := ChunksBytes(stop) + rest;
    assert end == [0, 0] + rest && end[2..] == rest;
    DecodeZero(end);
  }

  lemma DecodeZero(s: seq<Byte>)
    ensures |s| >= 2 && s[0] == s[1] == 0 ==> Decode(s, 0, None) == Decoded([], s[2..], true)
    ensures Decode([], 0, None) == Decoded([], [], true)
  {
  }
}
