/** buf.MultiBuffer: splitting and merging lists of buffers without losing or reordering a byte. */
module MultiBuffer {
  import opened Bytes

  function Min(x: nat, y: nat): nat {
    if x < y then x else y
  }

  /** A tail of the list, its first buffer perhaps cut. */
  predicate LeftOf(left: seq<seq<Byte>>, mb: seq<seq<Byte>>) {
    && |left| <= |mb|
    && (left != [] ==> |left[0]| <= |mb[|mb| - |left|]| && left[1..] == mb[|mb| - |left| + 1..])
  }

  /** Takes bytes off the front until b is full or mb is empty. The leftover begins with a byte. */
  method SplitBytes(mb: seq<seq<Byte>>, n: nat) returns (left: seq<seq<Byte>>, bytes: seq<Byte>)
    ensures bytes + Flatten(left) == Flatten(mb)
    ensures |bytes| == Min(n, |Flatten(mb)|)
    ensures left != [] ==> left[0] != []
    ensures LeftOf(left, mb)
  {
    bytes := [];
    for i := 0 to |mb|
      invariant bytes + Flatten(mb[i..]) == Flatten(mb)
      invariant |bytes| <= n
    {
      var k := Min(n - |bytes|, |mb[i]|);
      assert mb[i..] == [mb[i]] + mb[i + 1..];
      assert mb[i] == mb[i][..k] + mb[i][k..];
      assert Flatten(mb[i..]) == mb[i] + Flatten(mb[i + 1..]);
      if k < |mb[i]| {
        left := [mb[i][k..]] + mb[i + 1..];
        assert left[1..] == mb[i + 1..];
        assert bytes + mb[i][..k] + Flatten(left) == bytes + Flatten(mb[i..]);
        bytes := bytes + mb[i][..k];
        return;
      }
      bytes := bytes + mb[i];
    }
    left := [];
  }

  ghost predicate Bounded(mb: seq<seq<Byte>>) {
    forall i :: 0 <= i < |mb| ==> |mb[i]| <= SIZE
  }

  /** Whole buffers off the front, or a piece of the first one. It panics, copying into a fresh
      buffer, only if a piece larger than a buffer is asked for. */
  method SplitSize(mb: seq<seq<Byte>>, size: nat) returns (left: seq<seq<Byte>>, r: seq<seq<Byte>>)
    requires size <= SIZE || Bounded(mb)
    ensures Flatten(r) + Flatten(left) == Flatten(mb)
    ensures |Flatten(r)| <= size
    ensures mb != [] && size > 0 ==> |left| < |mb| || (|left| == |mb| && |Flatten(r)| == size)
    ensures Bounded(mb) ==> Bounded(left)
    ensures mb != [] && size > 0 && mb[0] != [] ==> Flatten(r) != []
    ensures Bounded(mb) && size >= SIZE && Flatten(mb) != [] ==> Flatten(r) != []
  {
    if |mb| == 0 {
      return mb, [];
    }
    if |mb[0]| > size {
      left, r := [mb[0][size..]] + mb[1..], [mb[0][..size]];
      FlattenOne(mb[0][..size]);
      assert left[1..] == mb[1..];
      assert mb[0] == mb[0][..size] + mb[0][size..];
      return;
    }
    var totalBytes := 0;
    r := [];
    for i := 0 to |mb|
      invariant r == mb[..i] && totalBytes == |Flatten(mb[..i])| <= size
      invariant i > 0 ==> mb[0] <= Flatten(mb[..i])
    {
      FlattenConcat(mb[..i], mb[i..]);
      assert mb == mb[..i] + mb[i..];
      if totalBytes + |mb[i]| > size {
        assert Bounded(mb) && size >= SIZE ==> totalBytes > 0;
        left := mb[i..];
        return;
      }
      assert mb[..i + 1] == mb[..i] + [mb[i]];
      FlattenSnoc(mb[..i], mb[i]);
      totalBytes := totalBytes + |mb[i]|;
      r := r + [mb[i]];
    }
    assert mb[..|mb|] == mb;
    left := [];
  }

  /** A buffer and the free room behind its content. */
  datatype Piece = Piece(data: seq<Byte>, room: nat)

  function Data(mb: seq<Piece>): seq<Byte> {
    if mb == [] then [] else mb[0].data + Data(mb[1..])
  }

  lemma {:induction false} DataSnoc(mb: seq<Piece>, p: Piece)
    ensures Data(mb + [p]) == Data(mb) + p.data
  {
    if mb == [] {
      assert [p][1..] == [];
      assert Data([p]) == p.data + Data([p][1..]);
    } else {
      assert (mb + [p])[1..] == mb[1..] + [p];
      DataSnoc(mb[1..], p);
    }
  }

  /** Fills the last buffer's room, then fresh buffers. */
  method MergeBytes(dest: seq<Piece>, src: seq<Byte>) returns (mb: seq<Piece>)
    ensures Data(mb) == Data(dest) + src
    ensures |mb| >= |dest|
  {
    mb := dest;
    var rest := src;
    var n := |dest|;
    if n > 0 && dest[n - 1].room > 0 {
      var last := dest[n - 1];
      var k := Min(last.room, |src|);
      assert dest == dest[..n - 1] + [last];
      mb := dest[..n - 1] + [Piece(last.data + src[..k], last.room - k)];
      DataSnoc(dest[..n - 1], last);
      DataSnoc(dest[..n - 1], mb[n - 1]);
      rest := src[k..];
    }
    while |rest| > 0
      invariant Data(mb) + rest == Data(dest) + src
      invariant |mb| >= |dest|
      decreases |rest|
    {
      var k := Min(SIZE, |rest|);
      var p := Piece(rest[..k], SIZE - k);
      DataSnoc(mb, p);
      assert rest == rest[..k] + rest[k..];
      mb, rest := mb + [p], rest[k..];
    }
    assert Data(mb) + rest == Data(mb);
  }

  /** Merges neighbours that fit. It panics, because reading from an empty buffer reports EOF, exactly
      when a buffer other than the first is empty; otherwise no byte moves. */
  method Compact(mb: seq<Piece>) returns (panics: bool, mb2: seq<Piece>)
    ensures panics <==> exists i :: 1 <= i < |mb| && mb[i].data == []
    ensures !panics ==> Data(mb2) == Data(mb) && |mb2| <= |mb|
  {
    panics, mb2 := false, [];
    if |mb| == 0 {
      return;
    }
    var last := mb[0];
    for i := 1 to |mb|
      invariant Data(mb2) + last.data + Data(mb[i..]) == Data(mb)
      invariant |mb2| < i
      invariant forall j :: 1 <= j < i ==> mb[j].data != []
    {
      var curr := mb[i];
      assert mb[i..] == [curr] + mb[i + 1..];
      if |curr.data| > last.room {
        DataSnoc(mb2, last);
        mb2, last := mb2 + [last], curr;
      } else if |curr.data| == 0 {
        panics := true;
        return;
      } else {
        assert Data(mb2) + (last.data + curr.data) == Data(mb2) + last.data + curr.data;
        last := Piece(last.data + curr.data, last.room - |curr.data|);
      }
    }
    DataSnoc(mb2, last);
    mb2 := mb2 + [last];
  }
}
