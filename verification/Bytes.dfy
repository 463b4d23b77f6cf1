/** Bytes, big-endian 16-bit numbers and lists of buffers. */
module Bytes {

  type Byte = b: int | 0 <= b < 256

  /** buf.Size: what a buffer holds. */
  const SIZE := 8192

  datatype Option<+T> = None | Some(value: T)

  /** The bytes held by a list of buffers, in order. */
  function Flatten<T>(ss: seq<seq<T>>): seq<T> {
    if ss == [] then [] else ss[0] + Flatten(ss[1..])
  }

  lemma {:induction false} FlattenConcat<T>(a: seq<seq<T>>, b: seq<seq<T>>)
    ensures Flatten(a + b) == Flatten(a) + Flatten(b)
  {
    if a == [] {
      assert a + b == b;
    } else {
      assert (a + b)[1..] == a[1..] + b;
      FlattenConcat(a[1..], b);
    }
  }

  lemma Regroup<T>(a: seq<T>, b: seq<T>, c: seq<T>)
    ensures a + b + c == a + (b + c)
  {
  }

  lemma FlattenOne<T>(s: seq<T>)
    ensures Flatten([s]) == s
  {
    assert Flatten([s]) == s + Flatten([s][1..]);
  }

  lemma FlattenSnoc<T>(a: seq<seq<T>>, s: seq<T>)
    ensures Flatten(a + [s]) == Flatten(a) + s
  {
    FlattenConcat(a, [s]);
    FlattenOne(s);
  }

  /** Unsigned 16-bit arithmetic. */
  function Wrap(n: nat): (r: nat)
    ensures r < 65536
    ensures n < 65536 ==> r == n
  {
    n % 65536
  }

  /** binary.BigEndian.PutUint16 */
  function PutUint16(n: nat): (r: seq<Byte>)
    requires n < 65536
    ensures |r| == 2
  {
    [n / 256, n % 256]
  }

  /** Two bytes as a 16-bit number. */
  function Word(hi: Byte, lo: Byte): (n: nat)
    ensures n < 65536
  {
    256 * (hi as int) + (lo as int)
  }

  /** binary.BigEndian.Uint16 */
  function Uint16(b: seq<Byte>): (n: nat)
    requires |b| == 2
    ensures n < 65536
  {
    Word(b[0], b[1])
  }

  lemma Uint16RoundTrip(n: nat)
    requires n < 65536
    ensures Word(PutUint16(n)[0], PutUint16(n)[1]) == n && Uint16(PutUint16(n)) == n
  {
  }

  lemma WordRoundTrip(hi: Byte, lo: Byte)
    ensures PutUint16(Word(hi, lo)) == [hi, lo]
  {
  }
}
