/** The receiving half of the Vision padding protocol: XtlsUnpadding as a resumable state machine, its
    byte-at-a-time reference, and the block format. */
module VisionUnpadding {
  import opened Bytes

  const UUID_LEN := 16
  const CONTINUE: Byte := 0
  const END: Byte := 1
  const DIRECT: Byte := 2

  // ---------------------------------------------------------------- wire format

  /** One padded block: command, two lengths, content and padding. */
  datatype Block = Block(command: Byte, content: seq<Byte>, padding: seq<Byte>)

  predicate Fits(b: Block) {
    |b.content| < 65536 && |b.padding| < 65536
  }

  function Header(b: Block): seq<Byte>
    requires Fits(b)
  {
    [b.command] + PutUint16(|b.content|) + PutUint16(|b.padding|)
  }

  function BlockBytes(b: Block): seq<Byte>
    requires Fits(b)
  {
    Header(b) + b.content + b.padding
  }

  ghost predicate AllFit(blocks: seq<Block>) {
    forall i :: 0 <= i < |blocks| ==> Fits(blocks[i])
  }

  ghost function BlocksBytes(blocks: seq<Block>): seq<Byte>
    requires AllFit(blocks)
  {
    if blocks == [] then [] else BlockBytes(blocks[0]) + BlocksBytes(blocks[1..])
  }

  ghost function Contents(blocks: seq<Block>): seq<Byte> {
    if blocks == [] then [] else blocks[0].content + Contents(blocks[1..])
  }

  /** Every block but the last says Continue. */
  ghost predicate ContinueUntilLast(blocks: seq<Block>) {
    forall i :: 0 <= i < |blocks| - 1 ==> blocks[i].command == CONTINUE
  }

  /** A finished padded stream: at least one block, and only the last one ends the padding. */
  ghost predicate Terminated(blocks: seq<Block>) {
    && blocks != []
    && AllFit(blocks)
    && ContinueUntilLast(blocks)
    && blocks[|blocks| - 1].command != CONTINUE
  }

  // ---------------------------------------------------------------- reference machine

  /** The four counters of InboundState/OutboundState that XtlsUnpadding works on. */
  datatype Unpad = Unpad(command: int, content: int, padding: int, current: int)

  predicate Initial(s: Unpad) {
    s.command == -1 && s.content == -1 && s.padding == -1
  }

  predicate Valid(s: Unpad) {
    || Initial(s)
    || (&& 1 <= s.command <= 5
        && (s.command <= 3 ==> 0 <= s.content < 65536)
        && (s.command == 3 ==> s.content <= 0xFF00)
        && (s.command == 1 ==> 0 <= s.padding <= 0xFF00))
    || (s.command == 0 && 0 <= s.content < 65536 && 0 <= s.padding < 65536 && s.content + s.padding > 0)
  }

  /** "this block done": the next header, or the initial state after a terminating command. */
  function Settle(s: Unpad): Unpad {
    if s.command <= 0 && s.content <= 0 && s.padding <= 0 then
      if s.current == 0 then s.(command := 5) else Unpad(-1, -1, -1, s.current)
    else s
  }

  /** One header byte. The low bytes are or-ed into a multiple of 256, which is addition. */
  function HeaderByte(s: Unpad, b: Byte): Unpad {
    if s.command == 5 then s.(command := 4, current := b)
    else if s.command == 4 then s.(command := 3, content := b * 256)
    else if s.command == 3 then s.(command := 2, content := s.content + b)
    else if s.command == 2 then s.(command := 1, padding := b * 256)
    else s.(command := 0, padding := s.padding + b)
  }

  datatype Output = Output(state: Unpad, out: seq<Byte>)

  /** One byte at a time; outside a padded stream every byte is passed on. */
  function Step(s: Unpad, b: Byte): Output {
    if Initial(s) then Output(s, [b])
    else if s.command > 0 then Output(Settle(HeaderByte(s, b)), [])
    else if s.content > 0 then Output(Settle(s.(content := s.content - 1)), [b])
    else Output(Settle(s.(padding := s.padding - 1)), [])
  }

  function Run(s: Unpad, bs: seq<Byte>): Output
    decreases bs
  {
    if bs == [] then Output(s, [])
    else
      var first := Step(s, bs[0]);
      var rest := Run(first.state, bs[1..]);
      Output(rest.state, first.out + rest.out)
  }

  lemma RunNil(s: Unpad)
    ensures Run(s, []) == Output(s, [])
  {
  }

  lemma {:induction false} RunConcat(s: Unpad, a: seq<Byte>, b: seq<Byte>)
    ensures Run(s, a + b) ==
            Output(Run(Run(s, a).state, b).state, Run(s, a).out + Run(Run(s, a).state, b).out)
    decreases a
  {
    if a == [] {
      assert a + b == b;
    } else {
      assert (a + b)[1..] == a[1..] + b;
      RunConcat(Step(s, a[0]).state, a[1..], b);
    }
  }

  lemma {:induction false} RunInitial(s: Unpad, bs: seq<Byte>)
    requires Initial(s)
    ensures Run(s, bs) == Output(s, bs)
  {
    if bs != [] {
      RunInitial(s, bs[1..]);
    }
  }

  lemma {:induction false} RunValid(s: Unpad, bs: seq<Byte>)
    requires Valid(s)
    ensures Valid(Run(s, bs).state) && |Run(s, bs).out| <= |bs|
    decreases bs
  {
    if bs != [] {
      RunValid(Step(s, bs[0]).state, bs[1..]);
    }
  }

  /** One header byte; the machine stays valid through it. */
  lemma RunHeader(s: Unpad, bs: seq<Byte>)
    requires Valid(s) && s.command > 0 && bs != []
    ensures Run(s, bs) == Run(Settle(HeaderByte(s, bs[0])), bs[1..])
    ensures Valid(Settle(HeaderByte(s, bs[0])))
  {
    assert Run(s, bs).out == [] + Run(Step(s, bs[0]).state, bs[1..]).out;
  }

  /** Output o already produced, followed by what r produces. */
  function Prepend(o: seq<Byte>, r: Output): Output {
    Output(r.state, o + r.out)
  }

  lemma PrependTwice(o: seq<Byte>, p: seq<Byte>, r: Output)
    ensures Prepend(o, Prepend(p, r)) == Prepend(o + p, r)
  {
  }

  /** n content bytes at once. */
  lemma {:induction false} RunContent(s: Unpad, bs: seq<Byte>, n: nat)
    requires s.command == 0 && 0 < n <= s.content && n <= |bs|
    ensures Run(s, bs) == Prepend(bs[..n], Run(Settle(s.(content := s.content - n)), bs[n..]))
    decreases n
  {
    if n > 1 {
      RunContent(s.(content := s.content - 1), bs[1..], n - 1);
      assert bs[1..][n - 1..] == bs[n..];
      assert bs[..n] == [bs[0]] + bs[1..][..n - 1];
    }
  }

  /** n padding bytes at once. */
  lemma {:induction false} RunPadding(s: Unpad, bs: seq<Byte>, n: nat)
    requires s.command == 0 && s.content == 0 && 0 < n <= s.padding && n <= |bs|
    ensures Run(s, bs) == Run(Settle(s.(padding := s.padding - n)), bs[n..])
    decreases n
  {
    if n > 1 {
      RunPadding(s.(padding := s.padding - 1), bs[1..], n - 1);
      assert bs[1..][n - 1..] == bs[n..];
    }
  }

  // ---------------------------------------------------------------- the code

  /** A buffer that opens a padded stream when the link is in its initial state. */
  predicate Marked(uuid: seq<Byte>, b: seq<Byte>) {
    |b| >= 21 && |uuid| == UUID_LEN && b[..UUID_LEN] == uuid
  }

  /** What one XtlsUnpadding call computes. */
  function Unpadding(uuid: seq<Byte>, s: Unpad, b: seq<Byte>): Output {
    if Initial(s) && Marked(uuid, b) then Run(s.(command := 5), b[UUID_LEN..]) else Run(s, b)
  }

  /** One direction of TrafficState: the reader's counters. */
  class Link {
    var remainingCommand: int
    var remainingContent: int
    var remainingPadding: int
    var currentCommand: int

    function State(): Unpad
      reads this
    {
      Unpad(remainingCommand, remainingContent, remainingPadding, currentCommand)
    }

    constructor ()
      ensures State() == Unpad(-1, -1, -1, 0) && Valid(State())
    {
      remainingCommand, remainingContent, remainingPadding, currentCommand := -1, -1, -1, 0;
    }

    /** The switch on remainingCommand. */
    method ReadHeader(data: Byte)
      requires 1 <= remainingCommand <= 5
      modifies this
      ensures State() == HeaderByte(old(State()), data)
    {
      match remainingCommand {
        case 5 => currentCommand := data;
        case 4 => remainingContent := (data as int) * 256;
        case 3 => remainingContent := remainingContent + data;
        case 2 => remainingPadding := (data as int) * 256;
        case _ => remainingPadding := remainingPadding + data;
      }
      remainingCommand := remainingCommand - 1;
    }

    /** The end of an iteration: a finished block resets the counters. */
    method FinishBlock() returns (ended: bool)
      modifies this
      ensures State() == Settle(old(State()))
      ensures ended ==> Initial(State())
      ensures !ended ==> Initial(State()) ==> State() == old(State())
    {
      ended := false;
      if remainingCommand <= 0 && remainingContent <= 0 && remainingPadding <= 0 {
        if currentCommand == 0 {
          remainingCommand := 5;
        } else {
          remainingCommand, remainingContent, remainingPadding := -1, -1, -1;
          ended := true;
        }
      }
    }

    /** The loop body: one header byte, one run of content or one run of padding. */
    method Consume(rest: seq<Byte>) returns (left: seq<Byte>, emitted: seq<Byte>, ended: bool)
      requires Valid(State()) && !Initial(State()) && rest != []
      modifies this
      ensures Valid(State()) && ended == Initial(State())
      ensures |emitted| + |left| <= |rest| && |left| < |rest|
      ensures Run(old(State()), rest) == Prepend(emitted, Run(State(), left))
    {
      hide Run;
      ghost var s := State();
      emitted := [];
      if remainingCommand > 0 {
        RunHeader(s, rest);
        left := rest[1..];
        ReadHeader(rest[0]);
      } else if remainingContent > 0 {
        var n := if |rest| < remainingContent then |rest| else remainingContent;
        RunContent(s, rest, n);
        emitted, left := rest[..n], rest[n..];
        remainingContent := remainingContent - n;
      } else {
        var n := if |rest| < remainingPadding then |rest| else remainingPadding;
        RunPadding(s, rest, n);
        left := rest[n..];
        remainingPadding := remainingPadding - n;
      }
      ended := FinishBlock();
    }

    method XtlsUnpadding(uuid: seq<Byte>, b: seq<Byte>) returns (newbuffer: seq<Byte>)
      requires Valid(State()) && |uuid| == UUID_LEN && |b| <= SIZE
      modifies this
      ensures Valid(State())
      ensures Output(State(), newbuffer) == Unpadding(uuid, old(State()), b)
      ensures |newbuffer| <= SIZE
    {
      var rest := b;
      if remainingCommand == -1 && remainingContent == -1 && remainingPadding == -1 {
        if |b| >= 21 && uuid == b[..UUID_LEN] {
          rest := b[UUID_LEN..];
          remainingCommand := 5;
        } else {
          RunInitial(State(), b);
          return b;
        }
      }
      ghost var all := Run(State(), rest);
      newbuffer := [];
      while |rest| > 0
        invariant Valid(State()) && !Initial(State())
        invariant |newbuffer| + |rest| <= |b|
        invariant all == Prepend(newbuffer, Run(State(), rest))
        decreases |rest|
      {
        var left, emitted, ended := Consume(rest);
        PrependTwice(newbuffer, emitted, Run(State(), left));
        newbuffer, rest := newbuffer + emitted, left;
        if ended {
          RunInitial(State(), rest);
          newbuffer := newbuffer + rest;
          break;
        }
      }
    }
  }
}
