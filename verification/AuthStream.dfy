/** The authenticated chunk stream: two stateful generators kept in step between the writer and a
    reader that reads ahead whatever happens to be buffered. */
module AuthStream {
  import opened Bytes
  import opened MultiBuffer

  // ---------------------------------------------------------------- nonces

  /** GenerateIncreasingNonce: a little-endian counter that wraps around. */
  function Increment(c: seq<Byte>): (r: seq<Byte>)
    ensures |r| == |c|
  {
    if c == [] then [] else if c[0] == 255 then [0] + Increment(c[1..]) else [c[0] + 1] + c[1..]
  }

  function Pow256(n: nat): nat {
    if n == 0 then 1 else 256 * Pow256(n - 1)
  }

  function Value(c: seq<Byte>): nat {
    if c == [] then 0 else c[0] + 256 * Value(c[1..])
  }

  lemma {:induction false} IncrementCounts(c: seq<Byte>)
    ensures Value(c) < Pow256(|c|)
    ensures Value(Increment(c)) == if Value(c) == Pow256(|c|) - 1 then 0 else Value(c) + 1
  {
    if c != [] {
      IncrementCounts(c[1..]);
      var r := Increment(c);
      assert r[1..] == if c[0] == 255 then Increment(c[1..]) else c[1..];
    }
  }

  /** The nonce of the k-th call of GenerateAEADNonceWithSize(n), k counted from 1. */
  function Nonce(n: nat, k: nat): (r: seq<Byte>)
    ensures |r| == n
  {
    if k == 0 then seq(n, i => 255) else Increment(Nonce(n, k - 1))
  }

  lemma {:induction false} AllOnes(n: nat)
    ensures Value(seq(n, i => 255)) == Pow256(n) - 1
  {
    if n > 0 {
      var s: seq<Byte> := seq(n, i => 255);
      var s': seq<Byte> := seq(n - 1, i => 255);
      assert s[1..] == s';
      AllOnes(n - 1);
    }
  }

  lemma {:induction false} NonceValue(n: nat, k: nat)
    requires 1 <= k <= Pow256(n)
    ensures Value(Nonce(n, k)) == k - 1
    decreases k
  {
    IncrementCounts(Nonce(n, k - 1));
    if k == 1 {
      AllOnes(n);
    } else {
      NonceValue(n, k - 1);
    }
  }

  /** No nonce is used twice in the first 256^n calls. */
  lemma NoncesDistinct(n: nat, j: nat, k: nat)
    requires 1 <= j < k <= Pow256(n)
    ensures Nonce(n, j) != Nonce(n, k)
  {
    NonceValue(n, j);
    NonceValue(n, k);
  }

  // ---------------------------------------------------------------- the two generators

  /** An AEAD with its key and associated data fixed (sections 2.1 and 2.2 of RFC 5116). */
  datatype Aead = Aead(overhead: nat, seal: (seq<Byte>, seq<Byte>) -> seq<Byte>,
                       open: (seq<Byte>, seq<Byte>) -> Option<seq<Byte>>)

  ghost predicate CorrectAead(a: Aead) {
    forall n, p :: |a.seal(n, p)| == |p| + a.overhead && a.open(n, a.seal(n, p)) == Some(p)
  }

  /** The size parser and the padding generator. Both may draw from one pseudo-random stream, so each
      call is a function of its turn, the number of calls made before it. */
  datatype Shaper = Shaper(sizeBytes: nat, maxPadding: nat, padding: nat -> nat,
                           encode: (nat, nat) -> seq<Byte>, decode: (nat, seq<Byte>) -> Option<nat>)

  ghost predicate CorrectShaper(s: Shaper) {
    && (forall t :: s.padding(t) <= s.maxPadding)
    && (forall t, n :: n < 65536 ==> |s.encode(t, n)| == s.sizeBytes && s.decode(t, s.encode(t, n)) == Some(n))
  }

  /** What both ends agree on. There must be room for payload. */
  datatype Env = Env(aead: Aead, shaper: Shaper)

  ghost predicate Correct(e: Env) {
    CorrectAead(e.aead) && CorrectShaper(e.shaper) && PayloadSize(e) > 0
  }

  function PayloadSize(e: Env): int {
    SIZE - e.aead.overhead - e.shaper.sizeBytes - e.shaper.maxPadding
  }

  /** Where an end is: calls made to the shaper, and the last nonce. */
  datatype Pos = Pos(turn: nat, nonce: seq<Byte>)

  function NextPos(w: Pos): Pos {
    Pos(w.turn + 2, Increment(w.nonce))
  }

  /** A sealed chunk: its plaintext and the random padding bytes behind it. */
  datatype Chunk = Chunk(plain: seq<Byte>, pad: seq<Byte>)

  function ChunkSize(e: Env, c: Chunk): nat {
    |c.plain| + e.aead.overhead + |c.pad|
  }

  function ChunkBytes(e: Env, w: Pos, c: Chunk): seq<Byte> {
    e.shaper.encode(w.turn + 1, ChunkSize(e, c)) + (e.aead.seal(Increment(w.nonce), c.plain) + c.pad)
  }

  /** Chunk c is what seal makes at position w. */
  predicate Proper(e: Env, w: Pos, c: Chunk) {
    |c.pad| == e.shaper.padding(w.turn) && e.shaper.sizeBytes + ChunkSize(e, c) <= SIZE
  }

  ghost predicate AllProper(e: Env, w: Pos, cs: seq<Chunk>)
    decreases cs
  {
    cs == [] || (Proper(e, w, cs[0]) && AllProper(e, NextPos(w), cs[1..]))
  }

  ghost function Wire(e: Env, w: Pos, cs: seq<Chunk>): seq<Byte>
    decreases cs
  {
    if cs == [] then [] else ChunkBytes(e, w, cs[0]) + Wire(e, NextPos(w), cs[1..])
  }

  ghost function PosAfter(w: Pos, n: nat): Pos
    decreases n
  {
    if n == 0 then w else PosAfter(NextPos(w), n - 1)
  }

  function Plain(cs: seq<Chunk>): seq<Byte> {
    if cs == [] then [] else cs[0].plain + Plain(cs[1..])
  }

  lemma NoChunks()
    ensures Plain([]) == [] && NonEmpty([]) == []
  {
  }

  lemma {:induction false} WireSnoc(e: Env, w: Pos, cs: seq<Chunk>, c: Chunk)
    ensures Wire(e, w, cs + [c]) == Wire(e, w, cs) + ChunkBytes(e, PosAfter(w, |cs|), c)
    ensures PosAfter(w, |cs| + 1) == NextPos(PosAfter(w, |cs|))
    ensures Plain(cs + [c]) == Plain(cs) + c.plain
    ensures AllProper(e, w, cs + [c]) <==> AllProper(e, w, cs) && Proper(e, PosAfter(w, |cs|), c)
    decreases cs
  {
    if cs == [] {
      assert [c][1..] == [];
      assert cs + [c] == [c];
      assert Wire(e, w, [c]) == ChunkBytes(e, w, c) + Wire(e, NextPos(w), [c][1..]);
      assert Plain([c]) == c.plain + Plain([c][1..]);
      assert PosAfter(w, 1) == PosAfter(NextPos(w), 0);
    } else {
      assert (cs + [c])[1..] == cs[1..] + [c];
      WireSnoc(e, NextPos(w), cs[1..], c);
    }
  }

  ghost function Plains(cs: seq<Chunk>): seq<seq<Byte>> {
    seq(|cs|, i requires 0 <= i < |cs| => cs[i].plain)
  }

  function NonEmpty(mb: seq<seq<Byte>>): seq<seq<Byte>> {
    if mb == [] then [] else (if mb[0] == [] then [] else [mb[0]]) + NonEmpty(mb[1..])
  }

  lemma {:induction false} NonEmptySnoc(mb: seq<seq<Byte>>, b: seq<Byte>)
    ensures NonEmpty(mb + [b]) == NonEmpty(mb) + if b == [] then [] else [b]
  {
    if mb == [] {
      assert [b][1..] == [] && mb + [b] == [b];
      assert NonEmpty([b]) == (if b == [] then [] else [b]) + NonEmpty([b][1..]);
    } else {
      assert (mb + [b])[1..] == mb[1..] + [b];
      NonEmptySnoc(mb[1..], b);
    }
  }

  lemma {:induction false} PlainsFlat(cs: seq<Chunk>)
    ensures Flatten(Plains(cs)) == Plain(cs)
  {
    if cs != [] {
      assert Plains(cs)[1..] == Plains(cs[1..]);
      PlainsFlat(cs[1..]);
    }
  }

  lemma PosAfterZero(w: Pos)
    ensures PosAfter(w, 0) == w
  {
  }

  lemma {:induction false} PosAfterSnoc(w: Pos, k: nat)
    ensures PosAfter(w, k + 1) == NextPos(PosAfter(w, k))
    decreases k
  {
    if k > 0 {
      PosAfterSnoc(NextPos(w), k - 1);
    } else {
      assert PosAfter(w, 1) == PosAfter(NextPos(w), 0);
    }
  }

  lemma {:induction false} PosAfterAdd(w: Pos, j: nat, k: nat)
    ensures PosAfter(PosAfter(w, j), k) == PosAfter(w, j + k)
    decreases k
  {
    if k > 0 {
      PosAfterAdd(w, j, k - 1);
      PosAfterSnoc(PosAfter(w, j), k - 1);
      PosAfterSnoc(w, j + k - 1);
    }
  }

  /** Whoever has passed k chunks has made exactly 2k calls to the shaper. */
  lemma {:induction false} TurnAfter(w: Pos, k: nat)
    ensures PosAfter(w, k).turn == w.turn + 2 * k
    decreases k
  {
    if k > 0 {
      TurnAfter(NextPos(w), k - 1);
    }
  }

  /** The k-th chunk of a writer that starts its counter afresh is sealed with the k-th nonce. */
  lemma {:induction false} SealNonce(n: nat, j: nat, turn: nat, k: nat)
    ensures PosAfter(Pos(turn, Nonce(n, j)), k).nonce == Nonce(n, j + k)
    decreases k
  {
    if k > 0 {
      SealNonce(n, j + 1, turn + 2, k - 1);
    }
  }

  /** No two chunks of one writer are sealed with the same nonce, over a whole period. */
  lemma SealsNeverShareNonce(n: nat, turn: nat, i: nat, j: nat)
    requires i < j < Pow256(n)
    ensures var w := Pos(turn, Nonce(n, 0));
            Increment(PosAfter(w, i).nonce) != Increment(PosAfter(w, j).nonce)
  {
    SealNonce(n, 0, turn, i);
    SealNonce(n, 0, turn, j);
    NoncesDistinct(n, i + 1, j + 1);
  }
}
