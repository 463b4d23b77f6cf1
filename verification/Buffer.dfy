/** buf.Buffer: a window over a fixed byte array. */
module Buf {
  import opened Bytes

  ghost function Zeros(n: nat): (z: seq<Byte>)
    ensures |z| == n
  {
    seq(n, i => 0)
  }

  class Buffer {
    var v: array<Byte>
    var start: nat
    var end: nat

    ghost predicate Valid()
      reads this
    {
      start <= end <= v.Length
    }

    function Bytes(): seq<Byte>
      requires Valid()
      reads this, v
    {
      v[start..end]
    }

    constructor New()
      ensures Valid() && fresh(v) && Bytes() == [] && v.Length == SIZE && start == 0
    {
      v := new Byte[SIZE](i => 0);
      start, end := 0, 0;
    }

    /** Copies what fits and reports how much that was. */
    method Write(data: seq<Byte>) returns (n: nat)
      requires Valid()
      modifies this`end, v
      ensures Valid()
      ensures n == if |data| <= v.Length - old(end) then |data| else v.Length - old(end)
      ensures end == old(end) + n
      ensures Bytes() == old(Bytes()) + data[..n]
    {
      n := if |data| <= v.Length - end then |data| else v.Length - end;
      forall i | 0 <= i < n {
        v[end + i] := data[i];
      }
      end := end + n;
      assert v[start..end] == old(v[start..end]) + data[..n];
    }

    /** Appends n zero bytes. Go panics when they do not fit. */
    method Extend(n: nat)
      requires Valid() && end + n <= v.Length
      modifies this`end, v
      ensures Valid() && end == old(end) + n
      ensures Bytes() == old(Bytes()) + Zeros(n)
    {
      forall i | end <= i < end + n {
        v[i] := 0;
      }
      end := end + n;
      assert v[start..end] == old(v[start..end]) + Zeros(n);
    }

    /** A write that fits. */
    method Append(data: seq<Byte>)
      requires Valid() && end + |data| <= v.Length
      modifies this`end, v
      ensures Valid() && end == old(end) + |data|
      ensures Bytes() == old(Bytes()) + data
    {
      var n := Write(data);
      assert data[..n] == data;
    }

    /** io.ReadFull from this buffer; on a shortage everything left is consumed. */
    method ReadFull(n: nat) returns (r: Option<seq<Byte>>)
      requires Valid()
      modifies this`start
      ensures Valid()
      ensures r.Some? <==> n <= |old(Bytes())|
      ensures r.Some? ==> r.value == old(Bytes())[..n] && Bytes() == old(Bytes())[n..]
      ensures r.None? ==> Bytes() == []
    {
      if n > end - start {
        start := end;
        return None;
      }
      assert v[start..start + n] == Bytes()[..n] && v[start + n..end] == Bytes()[n..];
      r := Some(v[start..start + n]);
      start := start + n;
    }

    /** Drops bytes from the front. */
    method Advance(n: nat)
      requires Valid() && n <= |Bytes()|
      modifies this`start
      ensures Valid() && Bytes() == old(Bytes())[n..]
    {
      start := start + n;
    }

    /** Overwrites the first bytes in place. */
    method Patch(data: seq<Byte>)
      requires Valid() && |data| <= |Bytes()|
      modifies v
      ensures Bytes() == data + old(Bytes())[|data|..]
    {
      forall i | 0 <= i < |data| {
        v[start + i] := data[i];
      }
    }
  }
}
