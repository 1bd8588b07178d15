// The seekable in-memory writer that refuses to grow past a limit (src/app/clipboard.rs).
module LimitedWriter {
  import opened Common

  // The longest Vec there can be, isize::MAX bytes.
  const VEC_LIMIT: nat := 0x7FFF_FFFF_FFFF_FFFF

  type U64 = n: nat | n < U64_LIMIT

  type I64 = n: int | -0x8000_0000_0000_0000 <= n < 0x8000_0000_0000_0000

  datatype SeekFrom = Start(n: U64) | End(offset: I64) | Current(offset: I64)

  datatype Op = Write(bytes: seq<Byte>) | Seek(target: SeekFrom)

  datatype Reply = Wrote(n: nat) | At(position: nat) | InvalidInput | FileTooLarge

  // ---------------------------------------------------------------- std::io::Cursor<Vec<u8>>

  datatype Cursor = Cursor(buffer: seq<Byte>, position: nat)

  const EMPTY: Cursor := Cursor([], 0)

  function Padded(buffer: seq<Byte>, n: nat): (r: seq<Byte>)
    ensures |r| == Max(|buffer|, n)
  {
    if n <= |buffer| then buffer else buffer + seq(n - |buffer|, _ => 0)
  }

  // A write past the end first fills the gap with zeros.
  function Overwrite(buffer: seq<Byte>, position: nat, bytes: seq<Byte>): seq<Byte> {
    var padded := Padded(buffer, position);
    var end := position + |bytes|;
    padded[..position] + bytes + (if end < |padded| then padded[end..] else [])
  }

  lemma OverwriteMeaning(buffer: seq<Byte>, position: nat, bytes: seq<Byte>, i: nat)
    ensures var r := Overwrite(buffer, position, bytes);
            && |r| == Max(Max(|buffer|, position), position + |bytes|)
            && (i < |r| ==>
                  r[i] == if position <= i < position + |bytes| then bytes[i - position]
                          else if i < |buffer| then buffer[i] else 0)
  {
  }

  // checked_add_signed against the base the target names.
  function SeekTarget(c: Cursor, target: SeekFrom): Option<nat> {
    var next := match target
                case Start(n) => n
                case End(offset) => |c.buffer| + offset
                case Current(offset) => c.position + offset;
    if 0 <= next < U64_LIMIT then Some(next) else None
  }

  function CursorStep(c: Cursor, op: Op): (Cursor, Reply) {
    match op
    case Write(bytes) =>
      (Cursor(Overwrite(c.buffer, c.position, bytes), c.position + |bytes|), Wrote(|bytes|))
    case Seek(target) =>
      var next := SeekTarget(c, target);
      if next.None? then (c, InvalidInput) else (c.(position := next.value), At(next.value))
  }

  // ---------------------------------------------------------------- the limited writer

  datatype Writer = Writer(cursor: Cursor, limit: nat, exceeded: bool)

  function SaturatingAdd(a: nat, b: nat): nat {
    Min(a + b, U64_MAX)
  }

  function WriterStep(w: Writer, op: Op): (Writer, Reply) {
    match op
    case Write(bytes) =>
      if SaturatingAdd(w.cursor.position, |bytes|) > w.limit then (w.(exceeded := true), FileTooLarge)
      else
        var (cursor, reply) := CursorStep(w.cursor, op);
        (w.(cursor := cursor), reply)
    case Seek(_) =>
      var (cursor, reply) := CursorStep(w.cursor, op);
      if reply.At? && reply.position > w.limit then (Writer(cursor, w.limit, true), FileTooLarge)
      else (w.(cursor := cursor), reply)
  }

  class LimitedVecWriter {
    var buffer: seq<Byte>
    var position: nat
    const limit: nat
    var exceededLimit: bool

    ghost function Abs(): Writer
      reads this
    {
      Writer(Cursor(buffer, position), limit, exceededLimit)
    }

    constructor (limit: nat)
      ensures Abs() == Writer(EMPTY, limit, false)
    {
      this.limit := limit;
      buffer, position, exceededLimit := [], 0, false;
    }

    method Write(bytes: seq<Byte>) returns (reply: Reply)
      modifies this`buffer, this`position, this`exceededLimit
      ensures (Abs(), reply) == WriterStep(old(Abs()), Op.Write(bytes))
    {
      var end := if position + |bytes| > U64_MAX then U64_MAX else position + |bytes|;
      if end > limit {
        exceededLimit := true;
        return FileTooLarge;
      }
      buffer := Overwrite(buffer, position, bytes);
      position := position + |bytes|;
      reply := Wrote(|bytes|);
    }

    method Seek(target: SeekFrom) returns (reply: Reply)
      modifies this`position, this`exceededLimit
      ensures (Abs(), reply) == WriterStep(old(Abs()), Op.Seek(target))
    {
      var next := SeekTarget(Cursor(buffer, position), target);
      if next.None? {
        return InvalidInput;
      }
      position := next.value;
      if next.value > limit {
        exceededLimit := true;
        return FileTooLarge;
      }
      reply := At(next.value);
    }

    // Runs an encoder for n calls, handing it every reply.
    method Serve(encoder: Encoder, n: nat) returns (replies: seq<Reply>)
      requires Abs() == Writer(EMPTY, limit, false)
      modifies this`buffer, this`position, this`exceededLimit
      ensures (Abs(), replies) == Limited(limit, encoder, n)
    {
      replies := [];
      for k := 0 to n
        invariant (Abs(), replies) == Limited(limit, encoder, k)
      {
        var op, reply := encoder(replies), InvalidInput;
        match op {
          case Write(bytes) => reply := Write(bytes);
          case Seek(target) => reply := Seek(target);
        }
        replies := replies + [reply];
      }
    }
  }

  // ---------------------------------------------------------------- any client, any number of calls

  // A client picks its next call from the replies it has had so far.
  type Encoder = seq<Reply> -> Op

  function Limited(limit: nat, encoder: Encoder, n: nat): (Writer, seq<Reply>) {
    if n == 0 then (Writer(EMPTY, limit, false), [])
    else
      var before := Limited(limit, encoder, n - 1);
      var after := WriterStep(before.0, encoder(before.1));
      (after.0, before.1 + [after.1])
  }

  function Unlimited(encoder: Encoder, n: nat): (Cursor, seq<Reply>) {
    if n == 0 then (EMPTY, [])
    else
      var before := Unlimited(encoder, n - 1);
      var after := CursorStep(before.0, encoder(before.1));
      (after.0, before.1 + [after.1])
  }

  // The call would leave the first limit bytes.
  predicate Overshoots(limit: nat, c: Cursor, op: Op) {
    match op
    case Write(bytes) => c.position + |bytes| > limit
    case Seek(target) => SeekTarget(c, target).Some? && SeekTarget(c, target).value > limit
  }

  predicate OvershootsAt(limit: nat, encoder: Encoder, k: nat) {
    Overshoots(limit, Unlimited(encoder, k).0, encoder(Unlimited(encoder, k).1))
  }

  lemma StepMatches(w: Writer, op: Op)
    requires w.limit <= VEC_LIMIT
    ensures WriterStep(w, op).0.limit == w.limit
    ensures w.exceeded ==> WriterStep(w, op).0.exceeded
    ensures !w.exceeded ==> (WriterStep(w, op).0.exceeded <==> Overshoots(w.limit, w.cursor, op))
    ensures !Overshoots(w.limit, w.cursor, op) ==>
              WriterStep(w, op) == (w.(cursor := CursorStep(w.cursor, op).0), CursorStep(w.cursor, op).1)
  {
  }

  // A call that would leave the limit is refused as too large and flagged: a write changes nothing, a seek
  // moves. Any other write lands at the position and moves it; any other seek moves or, before the start or
  // past 64 bits, fails and stays.
  lemma CallMeans(w: Writer, op: Op)
    requires w.limit <= VEC_LIMIT
    ensures var (next, reply) := WriterStep(w, op);
            match op
            case Write(bytes) =>
              if w.cursor.position + |bytes| > w.limit then next == w.(exceeded := true) && reply == FileTooLarge
              else
                && next.exceeded == w.exceeded && reply == Wrote(|bytes|)
                && next.cursor.position == w.cursor.position + |bytes|
                && next.cursor.buffer == Overwrite(w.cursor.buffer, w.cursor.position, bytes)
            case Seek(target) =>
              var at := match target
                        case Start(n) => n
                        case End(offset) => |w.cursor.buffer| + offset
                        case Current(offset) => w.cursor.position + offset;
              if at < 0 || at >= U64_LIMIT then next == w && reply == InvalidInput
              else
                && next.cursor == Cursor(w.cursor.buffer, at)
                && next.exceeded == (w.exceeded || at > w.limit)
                && reply == if at > w.limit then FileTooLarge else At(at)
  {
  }

  // The buffer never outgrows the limit, even after a seek beyond it.
  lemma {:induction false} BufferStaysWithinLimit(limit: nat, encoder: Encoder, n: nat)
    requires limit <= VEC_LIMIT
    ensures |Limited(limit, encoder, n).0.cursor.buffer| <= limit
    ensures Limited(limit, encoder, n).0.limit == limit
  {
    if n > 0 {
      BufferStaysWithinLimit(limit, encoder, n - 1);
      var before := Limited(limit, encoder, n - 1);
      var w, replies := before.0, before.1;
      StepStaysWithinLimit(w, encoder(replies));
    }
  }

  lemma StepStaysWithinLimit(w: Writer, op: Op)
    requires w.limit <= VEC_LIMIT && |w.cursor.buffer| <= w.limit
    ensures WriterStep(w, op).0.limit == w.limit && |WriterStep(w, op).0.cursor.buffer| <= w.limit
  {
    if op.Write? {
      OverwriteMeaning(w.cursor.buffer, w.cursor.position, op.bytes, 0);
    }
  }

  lemma {:induction false} ExceededIsSticky(limit: nat, encoder: Encoder, m: nat, n: nat)
    requires m <= n && Limited(limit, encoder, m).0.exceeded
    ensures Limited(limit, encoder, n).0.exceeded
    decreases n - m
  {
    if m < n {
      ExceededIsSticky(limit, encoder, m, n - 1);
      var before := Limited(limit, encoder, n - 1);
      var w, replies := before.0, before.1;
      assert WriterStep(w, encoder(replies)).0.exceeded;
    }
  }

  predicate Overshot(limit: nat, encoder: Encoder, n: nat) {
    n > 0 && (Overshot(limit, encoder, n - 1) || OvershootsAt(limit, encoder, n - 1))
  }

  lemma {:induction false} OvershotMeans(limit: nat, encoder: Encoder, n: nat)
    ensures Overshot(limit, encoder, n) <==> exists k :: 0 <= k < n && OvershootsAt(limit, encoder, k)
  {
    if n > 0 {
      OvershotMeans(limit, encoder, n - 1);
    }
  }

  // Unless the flag is set, the limited run is the unlimited one.
  ghost predicate Mirrors(limit: nat, encoder: Encoder, n: nat) {
    !Limited(limit, encoder, n).0.exceeded ==>
      && Limited(limit, encoder, n).0.cursor == Unlimited(encoder, n).0
      && Limited(limit, encoder, n).1 == Unlimited(encoder, n).1
  }

  lemma {:induction false} ExceededIffOvershot(limit: nat, encoder: Encoder, n: nat)
    requires limit <= VEC_LIMIT
    ensures Limited(limit, encoder, n).0.exceeded <==> Overshot(limit, encoder, n)
    ensures Mirrors(limit, encoder, n)
  {
    if n > 0 {
      ExceededIffOvershot(limit, encoder, n - 1);
      NextCall(limit, encoder, n - 1);
    }
  }

  // The flag is set exactly when the unlimited run leaves the limit on the way, and until then buffer,
  // position and every reply are those of the unlimited run.
  lemma ExceededIffUnlimitedOvershoots(limit: nat, encoder: Encoder, n: nat)
    requires limit <= VEC_LIMIT
    ensures Limited(limit, encoder, n).0.exceeded <==> exists k :: 0 <= k < n && OvershootsAt(limit, encoder, k)
    ensures !Limited(limit, encoder, n).0.exceeded ==>
              && Limited(limit, encoder, n).0.cursor == Unlimited(encoder, n).0
              && Limited(limit, encoder, n).1 == Unlimited(encoder, n).1
  {
    ExceededIffOvershot(limit, encoder, n);
    OvershotMeans(limit, encoder, n);
  }

  lemma NextCall(limit: nat, encoder: Encoder, n: nat)
    requires limit <= VEC_LIMIT && Mirrors(limit, encoder, n)
    ensures Limited(limit, encoder, n).0.exceeded ==> Limited(limit, encoder, n + 1).0.exceeded
    ensures !Limited(limit, encoder, n).0.exceeded ==>
              (Limited(limit, encoder, n + 1).0.exceeded <==> OvershootsAt(limit, encoder, n))
    ensures Mirrors(limit, encoder, n + 1)
  {
    BufferStaysWithinLimit(limit, encoder, n);
    var before := Limited(limit, encoder, n);
    StepMatches(before.0, encoder(before.1));
  }

  datatype EncodeResult = TooLarge | EncoderFailed | Encoded(bytes: seq<Byte>)

  // encode_png: an encoder that makes n calls and then judges its own run by the replies it got.
  function EncodePng(limit: nat, encoder: Encoder, n: nat, succeeds: seq<Reply> -> bool): EncodeResult {
    var run := Limited(limit, encoder, n);
    if run.0.exceeded then TooLarge
    else if !succeeds(run.1) then EncoderFailed
    else if |run.0.cursor.buffer| > limit then TooLarge
    else Encoded(run.0.cursor.buffer)
  }

  // The limit is reported exactly when the encoder needed room past it, whatever the encoder made of the
  // refusal; otherwise the result is the one an unlimited buffer would have given, complete and within
  // the limit.
  lemma EncodedIsWholeOrRefused(limit: nat, encoder: Encoder, n: nat, succeeds: seq<Reply> -> bool)
    requires limit <= VEC_LIMIT
    ensures var fits := forall k :: 0 <= k < n ==> !OvershootsAt(limit, encoder, k);
            EncodePng(limit, encoder, n, succeeds) ==
            if !fits then TooLarge
            else if !succeeds(Unlimited(encoder, n).1) then EncoderFailed
            else Encoded(Unlimited(encoder, n).0.buffer)
    ensures EncodePng(limit, encoder, n, succeeds).Encoded? ==> |Unlimited(encoder, n).0.buffer| <= limit
  {
    ExceededIffUnlimitedOvershoots(limit, encoder, n);
    BufferStaysWithinLimit(limit, encoder, n);
  }
}
