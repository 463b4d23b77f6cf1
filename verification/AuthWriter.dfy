/** The writing half of the authenticated chunk stream. */
module AuthWriter {
  import opened Bytes
  import opened MultiBuffer
  import opened AuthStream

  // ---------------------------------------------------------------- the writer

  /** crypto/rand */
  method RandomBytes(n: nat) returns (s: seq<Byte>)
    ensures |s| == n
  {
    s := [];
    while |s| < n
      invariant |s| <= n
    {
      var b: Byte :| 0 <= b < 256;
      s := s + [b];
    }
  }

  lemma FirstByte(mb: seq<seq<Byte>>)
    ensures mb == [] ==> Flatten(mb) == []
    ensures mb != [] && mb[0] != [] ==> Flatten(mb) != []
  {
  }

  class AuthenticationWriter {
    const env: Env
    var turn: nat
    var nonce: seq<Byte>
    var sent: seq<Byte>
    // everything sealed so far, and where sealing began
    ghost var chunks: seq<Chunk>
    ghost const start: Pos
    // what each stream write was given
    ghost var writes: seq<seq<Byte>>

    ghost predicate Valid()
      reads this
    {
      && Correct(env)
      && AllProper(env, start, chunks)
      && sent == Wire(env, start, chunks)
      && Pos(turn, nonce) == PosAfter(start, |chunks|)
    }

    /** The chunks carry the writes, up to the first that is empty. */
    ghost predicate Told()
      reads this
    {
      Carries(writes, Plains(chunks))
    }

    constructor (env: Env, nonce: seq<Byte>)
      requires Correct(env)
      ensures Valid() && Told() && chunks == [] && writes == []
      ensures start == Pos(0, nonce) && Pos(turn, this.nonce) == start && sent == [] && this.env == env
    {
      this.env, turn, this.nonce, sent := env, 0, nonce, [];
      chunks, start, writes := [], Pos(0, nonce), [];
    }

    /** One chunk, or an error when it does not fit a buffer; the error has already drawn a padding. */
    method Seal(b: seq<Byte>) returns (r: Option<seq<Byte>>, ghost c: Chunk)
      requires Correct(env)
      modifies this`turn, this`nonce
      ensures c.plain == b && |c.pad| == env.shaper.padding(old(turn))
      ensures r.Some? <==> env.shaper.sizeBytes + ChunkSize(env, c) <= SIZE
      ensures r.Some? ==> r.value == ChunkBytes(env, old(Pos(turn, nonce)), c)
      ensures r.Some? ==> Pos(turn, nonce) == NextPos(old(Pos(turn, nonce)))
      ensures r.None? ==> turn == old(turn) + 1 && nonce == old(nonce)
    {
      var encryptedSize := |b| + env.aead.overhead;
      var paddingSize := env.shaper.padding(turn);
      turn := turn + 1;
      var pad := RandomBytes(paddingSize);
      c := Chunk(b, pad);
      if env.shaper.sizeBytes + encryptedSize + paddingSize > SIZE {
        return None, c;
      }
      var size := env.shaper.encode(turn, encryptedSize + paddingSize);
      turn := turn + 1;
      nonce := Increment(nonce);
      return Some(size + (env.aead.seal(nonce, b) + pad)), c;
    }

    /** Seals one chunk and puts it on the wire. */
    method Emit(b: seq<Byte>) returns (ok: bool)
      requires Valid()
      modifies this`turn, this`nonce, this`sent, this`chunks
      ensures ok ==> Valid() && |chunks| == |old(chunks)| + 1 && chunks[..|old(chunks)|] == old(chunks) && chunks[|old(chunks)|].plain == b
      ensures !ok ==> sent == old(sent) && chunks == old(chunks) && turn == old(turn) + 1
      ensures |b| <= PayloadSize(env) ==> ok
      ensures ok <==> env.shaper.sizeBytes + |b| + env.aead.overhead + env.shaper.padding(old(turn)) <= SIZE
    {
      var r, c := Seal(b);
      ok := r.Some?;
      if ok {
        WireSnoc(env, start, chunks, c);
        sent, chunks := sent + r.value, chunks + [c];
      }
    }

    /** Any write in stream mode: the bytes in chunks, none of them empty; an empty write is the one
        terminating chunk. Nothing ever fails to fit. */
    method WriteStream(mb: seq<seq<Byte>>)
      requires Valid()
      modifies this
      ensures Valid() && writes == old(writes) + [Flatten(mb)] && (old(Told()) ==> Told())
      ensures |old(chunks)| <= |chunks| && chunks[..|old(chunks)|] == old(chunks)
      ensures Plain(chunks[|old(chunks)|..]) == Flatten(mb)
      ensures if Flatten(mb) == [] then |chunks| == |old(chunks)| + 1
              else chunks[|old(chunks)|..] != [] && forall i :: |old(chunks)| <= i < |chunks| ==> chunks[i].plain != []
    {
      hide Wire, AllProper, PosAfter, CorrectAead, CorrectShaper, Plain, Flatten, LeftOf, Carries;
      ghost var n := |chunks|;
      NoChunks();
      var payloadSize := PayloadSize(env);
      var left := mb;
      ghost var done: seq<Byte> := [];
      var more := true;
      assert chunks[n..] == [];
      while more
        invariant Valid() && n <= |chunks| && chunks[..n] == old(chunks) && writes == old(writes)
        invariant done == Plain(chunks[n..]) && done + Flatten(left) == Flatten(mb)
        invariant Flatten(mb) != [] ==> forall i :: n <= i < |chunks| ==> chunks[i].plain != []
        invariant Flatten(mb) == [] ==> |chunks| == if more then n else n + 1
        invariant more ==> (Flatten(mb) == [] || Flatten(left) != [])
        invariant !more ==> Flatten(left) == [] && |chunks| > n
        decreases more, |Flatten(left)|
      {
        ghost var before := chunks;
        var nb, raw := SplitBytes(left, payloadSize);
        var ok := Emit(raw);
        assert chunks[n..] == before[n..] + [chunks[|before|]];
        WireSnoc(env, start, before[n..], chunks[|before|]);
        done := done + raw;
        assert done + Flatten(nb) == Flatten(mb);
        FirstByte(nb);
        left := nb;
        more := |nb| > 0;
      }
      assert done == Flatten(mb);
      writes := writes + [Flatten(mb)];
      if old(Told()) {
        ToldMore(old(writes), old(chunks), chunks, Flatten(mb));
      }
    }

    /**
     * Packets, one chunk each; empty ones are passed over. A packet that does not fit is dropped after it
     * has drawn a padding, and the writer is out of step from then on: exactly the packets that
     * fit with the padding of their turn are sent, sealed at the places that leaves.
     */
    method WritePacket(mb: seq<seq<Byte>>) returns (dropped: nat)
      requires Valid()
      modifies this`turn, this`nonce, this`sent, this`chunks
      ensures |old(chunks)| <= |chunks| && chunks[..|old(chunks)|] == old(chunks)
      ensures var d := Sends(env, old(Pos(turn, nonce)), NonEmpty(mb));
              && Placed(env, d, chunks[|old(chunks)|..])
              && Pos(turn, nonce) == d.pos
              && sent == old(sent) + PlacedWire(env, d.places, chunks[|old(chunks)|..])
              && dropped == |NonEmpty(mb)| - |d.plains|
      ensures dropped == 0 <==> AllFit(env, old(turn), NonEmpty(mb))
      ensures Valid() <==> dropped == 0
      ensures dropped == 0 ==> Plains(chunks[|old(chunks)|..]) == NonEmpty(mb)
      ensures (forall i :: 0 <= i < |mb| ==> |mb[i]| <= PayloadSize(env)) ==> dropped == 0
    {
      hide Wire, AllProper, Proper, PosAfter, CorrectAead, CorrectShaper, Plain, NonEmpty, PlacedWire, Sends, AllFit;
      dropped := 0;
      ghost var n, w := |chunks|, Pos(turn, nonce);
      NoChunks();
      NothingPlaced(env, w);
      assert chunks[n..] == [] && mb[..0] == [];
      for i := 0 to |mb|
        invariant Correct(env) && n <= |chunks| && chunks[..n] == old(chunks)
        invariant var d := Sends(env, w, NonEmpty(mb[..i]));
                  && Placed(env, d, chunks[n..]) && Pos(turn, nonce) == d.pos
                  && sent == old(sent) + PlacedWire(env, d.places, chunks[n..])
                  && dropped == |NonEmpty(mb[..i])| - |d.plains|
      {
        assert mb[..i + 1] == mb[..i] + [mb[i]];
        NonEmptySnoc(mb[..i], mb[i]);
        if |mb[i]| == 0 {
          assert NonEmpty(mb[..i + 1]) == NonEmpty(mb[..i]);
          continue;
        }
        assert NonEmpty(mb[..i + 1]) == NonEmpty(mb[..i]) + [mb[i]];
        ghost var before, was := chunks, Pos(turn, nonce);
        var r, c := Seal(mb[i]);
        PlacedSnoc(env, w, NonEmpty(mb[..i]), mb[i], before[n..], c);
        if r.None? {
          dropped := dropped + 1;
        } else {
          sent, chunks := sent + r.value, chunks + [c];
          assert chunks[n..] == before[n..] + [c];
        }
      }
      assert mb[..|mb|] == mb;
      InStepExactly(env, start, old(chunks), chunks, old(sent), sent, mb, w, Pos(turn, nonce));
    }

    /** WriteMultiBuffer: an empty write is the terminator in both modes. */
    method WriteMultiBuffer(mb: seq<seq<Byte>>, stream: bool) returns (dropped: nat)
      requires Valid()
      modifies this
      ensures stream ==> Valid() && writes == old(writes) + [Flatten(mb)] && (old(Told()) ==> Told())
      ensures |old(chunks)| <= |chunks| && chunks[..|old(chunks)|] == old(chunks)
      ensures Flatten(mb) == [] ==> Valid() && Plains(chunks[|old(chunks)|..]) == [[]]
      ensures Flatten(mb) != [] && !stream ==>
                && (dropped == 0 <==> AllFit(env, old(turn), NonEmpty(mb))) && (Valid() <==> dropped == 0)
                && (dropped == 0 ==> Plains(chunks[|old(chunks)|..]) == NonEmpty(mb))
      ensures stream || Flatten(mb) == [] ==> dropped == 0
    {
      hide Wire, AllProper, PosAfter, CorrectAead, CorrectShaper, Plain, Flatten, NonEmpty, PlacedWire, Placed, Sends, AllFit, Carries;
      dropped := 0;
      if Flatten(mb) == [] {
        ghost var before := chunks;
        var ok := Emit([]);
        assert Plains(chunks[|before|..]) == [[]];
        writes := writes + [[]];
        if old(Told()) {
          OneEmptyTold(old(writes), before, chunks);
        }
      } else if stream {
        WriteStream(mb);
      } else {
        dropped := WritePacket(mb);
      }
    }
  }

  // ---------------------------------------------------------------- writes and chunks

  /** The position of the first empty one, or the length. */
  function FirstEmpty(ps: seq<seq<Byte>>): (m: nat)
    ensures m <= |ps| && (m < |ps| ==> ps[m] == []) && forall i :: 0 <= i < m ==> ps[i] != []
  {
    if ps == [] || ps[0] == [] then 0 else 1 + FirstEmpty(ps[1..])
  }

  function UpToEmpty(ps: seq<seq<Byte>>): seq<seq<Byte>> {
    ps[..FirstEmpty(ps)]
  }

  ghost predicate Carries(ws: seq<seq<Byte>>, ps: seq<seq<Byte>>) {
    Flatten(UpToEmpty(ps)) == Flatten(UpToEmpty(ws)) && ([] in ps <==> [] in ws)
  }

  lemma FirstEmptyIs(ps: seq<seq<Byte>>, m: nat)
    requires m <= |ps| && (m < |ps| ==> ps[m] == []) && forall i :: 0 <= i < m ==> ps[i] != []
    ensures FirstEmpty(ps) == m
  {
  }

  lemma UpToEmptyConcat(a: seq<seq<Byte>>, b: seq<seq<Byte>>)
    ensures UpToEmpty(a + b) == if [] in a then UpToEmpty(a) else a + UpToEmpty(b)
  {
    if [] in a {
      FirstEmptyIs(a + b, FirstEmpty(a));
      assert (a + b)[..FirstEmpty(a)] == a[..FirstEmpty(a)];
    } else {
      FirstEmptyIs(a + b, |a| + FirstEmpty(b));
      assert (a + b)[..|a| + FirstEmpty(b)] == a + b[..FirstEmpty(b)];
    }
  }

  lemma CarriesMore(ws: seq<seq<Byte>>, ps: seq<seq<Byte>>, w: seq<Byte>, added: seq<seq<Byte>>)
    requires Carries(ws, ps) && Flatten(added) == w
    requires if w == [] then added == [[]] else [] !in added
    ensures Carries(ws + [w], ps + added)
  {
    hide FirstEmpty, Flatten;
    UpToEmptyConcat(ws, [w]);
    UpToEmptyConcat(ps, added);
    if [] !in ws {
      NoneToSkip(ws);
      NoneToSkip(ps);
      hide UpToEmpty;
      FlattenConcat(ps, UpToEmpty(added));
      FlattenConcat(ws, UpToEmpty([w]));
      FlattenOne(w);
      if w == [] {
        assert added == [w];
      } else {
        NoneToSkip([w]);
        NoneToSkip(added);
      }
    }
  }

  lemma NoneToSkip(ps: seq<seq<Byte>>)
    requires [] !in ps
    ensures UpToEmpty(ps) == ps
  {
    FirstEmptyIs(ps, |ps|);
  }

  lemma ToldMore(ws: seq<seq<Byte>>, before: seq<Chunk>, after: seq<Chunk>, w: seq<Byte>)
    requires Carries(ws, Plains(before)) && |before| <= |after| && after[..|before|] == before
    requires Plain(after[|before|..]) == w
    requires if w == [] then |after| == |before| + 1 else forall i :: |before| <= i < |after| ==> after[i].plain != []
    ensures Carries(ws + [w], Plains(after))
  {
    hide Carries;
    var added := after[|before|..];
    PlainsFlat(added);
    assert Plains(after) == Plains(before) + Plains(added);
    if w == [] {
      assert added == [added[0]];
      assert Plain(added) == added[0].plain + Plain(added[1..]);
      assert Plains(added) == [[]];
    }
    CarriesMore(ws, Plains(before), w, Plains(added));
  }

  lemma OneEmptyTold(ws: seq<seq<Byte>>, before: seq<Chunk>, after: seq<Chunk>)
    requires Carries(ws, Plains(before)) && |after| == |before| + 1 && after[..|before|] == before
    requires after[|before|].plain == []
    ensures Carries(ws + [[]], Plains(after))
  {
    hide Carries;
    var added := after[|before|..];
    assert added == [after[|before|]] && added[1..] == [];
    assert Plain(added) == added[0].plain + Plain(added[1..]);
    ToldMore(ws, before, after, []);
  }

  // ---------------------------------------------------------------- packets

  predicate FitsAt(e: Env, turn: nat, p: seq<Byte>) {
    e.shaper.sizeBytes + |p| + e.aead.overhead + e.shaper.padding(turn) <= SIZE
  }

  /** Every packet fits with the padding that is drawn at its turn. */
  ghost predicate AllFit(e: Env, turn: nat, ps: seq<seq<Byte>>) {
    forall i :: 0 <= i < |ps| ==> FitsAt(e, turn + 2 * i, ps[i])
  }

  /** What becomes of packets: which are sent, where each is sealed, and where the writer ends up. */
  datatype Sent = Sent(places: seq<Pos>, plains: seq<seq<Byte>>, pos: Pos)

  function Sends(e: Env, w: Pos, ps: seq<seq<Byte>>): (d: Sent)
    ensures |d.places| == |d.plains| <= |ps|
  {
    if ps == [] then Sent([], [], w)
    else
      var d := Sends(e, w, ps[..|ps| - 1]);
      var p := ps[|ps| - 1];
      if FitsAt(e, d.pos.turn, p) then Sent(d.places + [d.pos], d.plains + [p], NextPos(d.pos))
      else d.(pos := d.pos.(turn := d.pos.turn + 1))
  }

  /** Chunks that hold the packets sent, with the padding of their places. */
  ghost predicate Placed(e: Env, d: Sent, cs: seq<Chunk>) {
    && |cs| == |d.places| && Plains(cs) == d.plains
    && forall i :: 0 <= i < |cs| ==> Proper(e, d.places[i], cs[i])
  }

  ghost function PlacedWire(e: Env, ws: seq<Pos>, cs: seq<Chunk>): seq<Byte>
    requires |ws| == |cs|
  {
    if cs == [] then []
    else PlacedWire(e, ws[..|ws| - 1], cs[..|cs| - 1]) + ChunkBytes(e, ws[|ws| - 1], cs[|cs| - 1])
  }

  lemma NothingPlaced(e: Env, w: Pos)
    ensures Sends(e, w, []) == Sent([], [], w) && Placed(e, Sends(e, w, []), []) && PlacedWire(e, [], []) == []
  {
  }

  lemma PlacedSnoc(e: Env, w: Pos, ps: seq<seq<Byte>>, p: seq<Byte>, cs: seq<Chunk>, c: Chunk)
    requires Placed(e, Sends(e, w, ps), cs) && c.plain == p && |c.pad| == e.shaper.padding(Sends(e, w, ps).pos.turn)
    ensures var d, d' := Sends(e, w, ps), Sends(e, w, ps + [p]);
            if FitsAt(e, d.pos.turn, p) then
              && d'.pos == NextPos(d.pos) && |d'.plains| == |d.plains| + 1 && Placed(e, d', cs + [c])
              && PlacedWire(e, d'.places, cs + [c]) == PlacedWire(e, d.places, cs) + ChunkBytes(e, d.pos, c)
            else d' == d.(pos := d.pos.(turn := d.pos.turn + 1)) && Placed(e, d', cs)
  {
    hide ChunkBytes, NextPos;
    assert (ps + [p])[..|ps|] == ps;
    var d, d' := Sends(e, w, ps), Sends(e, w, ps + [p]);
    if FitsAt(e, d.pos.turn, p) {
      assert d'.places[..|d.places|] == d.places && (cs + [c])[..|cs|] == cs;
      assert Plains(cs + [c]) == Plains(cs) + [p];
    }
  }

  /** Where the writer stands after packets, whether or not some were dropped. */
  lemma {:induction false} SendsPos(e: Env, w: Pos, ps: seq<seq<Byte>>)
    ensures var d := Sends(e, w, ps);
            && d.pos.turn == w.turn + |ps| + |d.plains|
            && d.pos.nonce == PosAfter(w, |d.plains|).nonce
            && forall i :: 0 <= i < |d.plains| ==> d.places[i].nonce == PosAfter(w, i).nonce
  {
    hide FitsAt, PosAfter;
    if ps == [] {
      PosAfterZero(w);
    } else {
      SendsPos(e, w, ps[..|ps| - 1]);
      PosAfterSnoc(w, |Sends(e, w, ps[..|ps| - 1]).plains|);
    }
  }

  /** Nothing is dropped exactly if every packet fits at its turn; then the places follow each other. */
  lemma {:induction false} SendsAll(e: Env, w: Pos, ps: seq<seq<Byte>>)
    ensures var d := Sends(e, w, ps);
            && (|d.plains| == |ps| <==> AllFit(e, w.turn, ps))
            && (AllFit(e, w.turn, ps) ==> d.plains == ps)
            && (AllFit(e, w.turn, ps) ==> forall i :: 0 <= i < |ps| ==> d.places[i].turn == w.turn + 2 * i)
  {
    hide FitsAt, NextPos;
    if ps != [] {
      var n := |ps| - 1;
      SendsAll(e, w, ps[..n]);
      SendsPos(e, w, ps[..n]);
      AllFitSnoc(e, w.turn, ps);
      hide AllFit;
    }
  }

  lemma AllFitSnoc(e: Env, turn: nat, ps: seq<seq<Byte>>)
    requires ps != []
    ensures AllFit(e, turn, ps) <==> AllFit(e, turn, ps[..|ps| - 1]) && FitsAt(e, turn + 2 * (|ps| - 1), ps[|ps| - 1])
  {
    hide FitsAt;
  }

  /** Chunk c, sealed at w', is what would be sealed at w. */
  ghost predicate AsAt(e: Env, w: Pos, w': Pos, c: Chunk) {
    Proper(e, w, c) && ChunkBytes(e, w', c) == ChunkBytes(e, w, c)
  }

  /** Chunks sealed as if one place after the other, from where others stopped. */
  lemma {:induction false} PlacedInStep(e: Env, start: Pos, before: seq<Chunk>, ws: seq<Pos>, cs: seq<Chunk>)
    requires |ws| == |cs| && AllProper(e, start, before)
    requires forall i :: 0 <= i < |cs| ==> AsAt(e, PosAfter(start, |before| + i), ws[i], cs[i])
    ensures AllProper(e, start, before + cs)
    ensures Wire(e, start, before + cs) == Wire(e, start, before) + PlacedWire(e, ws, cs)
    decreases |cs|
  {
    hide Wire, AllProper, Proper, ChunkBytes, PosAfter;
    if cs == [] {
      assert before + cs == before;
    } else {
      var n := |cs| - 1;
      assert AsAt(e, PosAfter(start, |before| + n), ws[n], cs[n]);
      PlacedInStep(e, start, before, ws[..n], cs[..n]);
      WireSnoc(e, start, before + cs[..n], cs[n]);
      assert before + cs == before + cs[..n] + [cs[n]];
    }
  }

  /** The writer is still in step exactly if nothing was dropped. */
  lemma InStepExactly(e: Env, start: Pos, before: seq<Chunk>, after: seq<Chunk>, sent: seq<Byte>, now: seq<Byte>,
                      mb: seq<seq<Byte>>, w: Pos, pos: Pos)
    requires Correct(e) && AllProper(e, start, before) && sent == Wire(e, start, before) && w == PosAfter(start, |before|)
    requires |before| <= |after| && after[..|before|] == before
    requires var d := Sends(e, w, NonEmpty(mb));
             && Placed(e, d, after[|before|..]) && pos == d.pos
             && now == sent + PlacedWire(e, d.places, after[|before|..])
    ensures var d := Sends(e, w, NonEmpty(mb));
            && (|d.plains| == |NonEmpty(mb)| <==> AllFit(e, w.turn, NonEmpty(mb)))
            && (|d.plains| == |NonEmpty(mb)| <==>
                AllProper(e, start, after) && now == Wire(e, start, after) && pos == PosAfter(start, |after|))
            && (|d.plains| == |NonEmpty(mb)| ==> d.plains == NonEmpty(mb))
            && ((forall i :: 0 <= i < |mb| ==> |mb[i]| <= PayloadSize(e)) ==> |d.plains| == |NonEmpty(mb)|)
  {
    hide ChunkBytes, AllProper, Wire, PosAfter, PlacedWire, Sends, AllFit, NonEmpty, CorrectAead, CorrectShaper;
    var ps := NonEmpty(mb);
    var d := Sends(e, w, ps);
    var cs := after[|before|..];
    assert before + cs == after;
    SendsAll(e, w, ps);
    SendsPos(e, w, ps);
    TurnAfter(start, |before|);
    TurnAfter(start, |after|);
    SmallFit(e, w.turn, mb);
    if AllFit(e, w.turn, ps) {
      PosAfterAdd(start, |before|, |ps|);
      forall i | 0 <= i < |cs| ensures AsAt(e, PosAfter(start, |before| + i), d.places[i], cs[i]) {
        PosAfterAdd(start, |before|, i);
        TurnAfter(w, i);
      }
      PlacedInStep(e, start, before, d.places, cs);
    }
  }

  lemma SmallFit(e: Env, turn: nat, mb: seq<seq<Byte>>)
    requires Correct(e)
    ensures (forall i :: 0 <= i < |mb| ==> |mb[i]| <= PayloadSize(e)) ==> AllFit(e, turn, NonEmpty(mb))
  {
    NonEmptyFrom(mb);
    hide NonEmpty, CorrectAead;
    if forall i :: 0 <= i < |mb| ==> |mb[i]| <= PayloadSize(e) {
      var ps := NonEmpty(mb);
      forall i | 0 <= i < |ps| ensures FitsAt(e, turn + 2 * i, ps[i]) {
        assert ps[i] in ps;
      }
    }
  }

  lemma {:induction false} NonEmptyFrom(mb: seq<seq<Byte>>)
    ensures forall p :: p in NonEmpty(mb) ==> p in mb && p != []
  {
    if mb != [] {
      NonEmptyFrom(mb[1..]);
    }
  }
}
