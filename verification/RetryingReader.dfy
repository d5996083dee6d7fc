/** The server's retrying frame reader, over a stream that delivers short reads and timeouts
    on any schedule. */
module RetryingReader {
  import opened Bytes
  import opened Framing

  /** What the next `read` call does; a delivery hands over at least one byte if any is left. */
  datatype Outcome = Deliver(atMost: nat) | TimedOut | WouldBlock | OtherFailure

  type Schedule = nat -> Outcome

  predicate Idle(o: Outcome) { o.TimedOut? || o.WouldBlock? }

  datatype IoError = Eof | IdleError | OtherError | Protocol(error: ReadError)

  function DeliverySize(atMost: nat, need: nat, left: nat): (n: nat)
    ensures n <= need && n <= left && (n == 0 <==> need == 0 || left == 0)
  {
    Min(Min(if atMost == 0 then 1 else atMost, need), left)
  }

  /** The stream after a call: what is unread, and how many `read` calls have been made. */
  datatype Progress = Progress(data: seq<byte>, calls: nat)

  datatype ExactResult = Filled(got: seq<byte>, after: Progress) | Stopped(error: IoError, after: Progress)

  function PrependGot(got: seq<byte>, r: ExactResult): (out: ExactResult)
    ensures r.Stopped? ==> out == r
    ensures r.Filled? ==> out == Filled(got + r.got, r.after)
  {
    if r.Filled? then r.(got := got + r.got) else r
  }

  /** `read_exact_retrying` from any point of its loop: `need` bytes missing, `started` once any
      byte has arrived, `idle` consecutive idle errors so far. */
  function ReadExact(at: Progress, schedule: Schedule, need: nat, started: bool, idle: nat, maxIdle: nat)
    : (r: ExactResult)
    requires idle <= maxIdle
    decreases need, maxIdle - idle
  {
    if need == 0 then Filled([], at)
    else
      var next := at.(calls := at.calls + 1);
      match schedule(at.calls)
      case Deliver(atMost) =>
        var n := DeliverySize(atMost, need, |at.data|);
        if n == 0 then Stopped(Eof, next)
        else
          PrependGot(at.data[..n],
                     ReadExact(next.(data := at.data[n..]), schedule, need - n, true, 0, maxIdle))
      case OtherFailure => Stopped(OtherError, next)
      case _ =>
        if !started || idle + 1 > maxIdle then Stopped(IdleError, next)
        else ReadExact(next, schedule, need, started, idle + 1, maxIdle)
  }

  /** What a call asked for `need` bytes did to the stream `data`. */
  ghost predicate Consumed(data: seq<byte>, need: nat, r: ExactResult) {
    match r
    case Filled(got, after) => need <= |data| && got == data[..need] && after.data == data[need..]
    case Stopped(error, after) =>
      && (exists k: nat :: k < need && k <= |data| && after.data == data[k..])
      && (error == Eof ==> |data| < need)
      && !error.Protocol?
  }

  lemma ConsumedAfter(data: seq<byte>, n: nat, need: nat, sub: ExactResult)
    requires n <= |data| && n <= need && Consumed(data[n..], need - n, sub)
    ensures Consumed(data, need, PrependGot(data[..n], sub))
  {
    if sub.Filled? {
      assert data[..n] + data[n..][..need - n] == data[..need];
      assert data[n..][need - n..] == data[need..];
    } else {
      var k: nat :| k < need - n && k <= |data[n..]| && sub.after.data == data[n..][k..];
      assert data[n..][k..] == data[n + k..];
    }
  }

  lemma ConsumedNothing(data: seq<byte>, need: nat, error: IoError, after: Progress)
    requires need > 0 && after.data == data && !error.Protocol? && (error == Eof ==> data == [])
    ensures Consumed(data, need, Stopped(error, after))
  {
    assert data == data[0..];
  }

  /** Whatever the schedule, a filled buffer holds exactly the next bytes of the stream, and a
      stop consumes fewer than were asked for. */
  lemma {:induction false} ReadExactConsumes(at: Progress, schedule: Schedule, need: nat, started: bool,
                                             idle: nat, maxIdle: nat)
    requires idle <= maxIdle
    ensures Consumed(at.data, need, ReadExact(at, schedule, need, started, idle, maxIdle))
    decreases need, maxIdle - idle
  {
    var next, o := at.(calls := at.calls + 1), schedule(at.calls);
    if need == 0 {
    } else if o.Deliver? && DeliverySize(o.atMost, need, |at.data|) > 0 {
      var n := DeliverySize(o.atMost, need, |at.data|);
      var rest := next.(data := at.data[n..]);
      ReadExactConsumes(rest, schedule, need - n, true, 0, maxIdle);
      ConsumedAfter(at.data, n, need, ReadExact(rest, schedule, need - n, true, 0, maxIdle));
    } else if Idle(o) && started && idle + 1 <= maxIdle {
      ReadExactConsumes(next, schedule, need, started, idle + 1, maxIdle);
    } else {
      var r := ReadExact(at, schedule, need, started, idle, maxIdle);
      ConsumedNothing(at.data, need, r.error, r.after);
    }
  }

  /** Calls to `read` before the loop must end, from any point of it. */
  function ReadBudget(need: nat, started: bool, idle: nat, maxIdle: nat): int
    requires idle <= maxIdle
  {
    if need == 0 then 0
    else if started then need * (maxIdle + 1) - idle
    else 1 + (need - 1) * (maxIdle + 1)
  }

  lemma BudgetStep(need: nat, n: nat, idle: nat, maxIdle: nat)
    requires 1 <= n <= need && idle <= maxIdle
    ensures 1 + ReadBudget(need - n, true, 0, maxIdle) <= 1 + (need - 1) * (maxIdle + 1)
    ensures 1 + (need - 1) * (maxIdle + 1) <= need * (maxIdle + 1) - idle
  {
    MulLe(need - n, need - 1, maxIdle + 1);
    assert need * (maxIdle + 1) == (need - 1) * (maxIdle + 1) + (maxIdle + 1);
  }

  lemma {:induction false} MulLe(a: nat, b: nat, c: nat)
    requires a <= b
    ensures a * c <= b * c
    decreases b
  {
    if a == b {
    } else {
      MulLe(a, b - 1, c);
      assert b * c == (b - 1) * c + c;
    }
  }

  /** Although the idle counter resets on progress, a buffer of length L takes at most
      1 + (L - 1) * (max_idle_errors + 1) reads. */
  lemma {:induction false} ReadExactBounded(at: Progress, schedule: Schedule, need: nat, started: bool,
                                            idle: nat, maxIdle: nat)
    requires idle <= maxIdle && (!started ==> idle == 0)
    ensures ReadExact(at, schedule, need, started, idle, maxIdle).after.calls
            <= at.calls + ReadBudget(need, started, idle, maxIdle)
    decreases need, maxIdle - idle
  {
    var next := at.(calls := at.calls + 1);
    if need == 0 {
    } else {
      BudgetStep(need, 1, idle, maxIdle);
      MulLe(0, need - 1, maxIdle + 1);
      var o := schedule(at.calls);
      if o.Deliver? {
        var n := DeliverySize(o.atMost, need, |at.data|);
        if n > 0 {
          BudgetStep(need, n, idle, maxIdle);
          ReadExactBounded(next.(data := at.data[n..]), schedule, need - n, true, 0, maxIdle);
        }
      } else if Idle(o) && started && idle + 1 <= maxIdle {
        ReadExactBounded(next, schedule, need, started, idle + 1, maxIdle);
      }
    }
  }

  // ---- when it gives up ----

  /** The last `n` calls were all idle. */
  predicate IdleRun(schedule: Schedule, calls: nat, n: nat) {
    n <= calls && forall k: nat :: calls - n <= k < calls ==> Idle(schedule(k))
  }

  lemma {:induction false} GivesUp(at: Progress, schedule: Schedule, need: nat, idle: nat, maxIdle: nat)
    requires idle <= maxIdle && IdleRun(schedule, at.calls, idle)
    ensures var r := ReadExact(at, schedule, need, true, idle, maxIdle);
            r.Stopped? && r.error == IdleError ==> IdleRun(schedule, r.after.calls, maxIdle + 1)
    decreases need, maxIdle - idle
  {
    var next, o := at.(calls := at.calls + 1), schedule(at.calls);
    if need == 0 {
    } else if o.Deliver? {
      var n := DeliverySize(o.atMost, need, |at.data|);
      if n > 0 {
        GivesUp(next.(data := at.data[n..]), schedule, need - n, 0, maxIdle);
      }
    } else if Idle(o) && idle + 1 <= maxIdle {
      GivesUp(next, schedule, need, idle + 1, maxIdle);
    }
  }

  /** A read gives up as idle when its very first call is, and later only when one more call in a row was
      than it tolerates. */
  lemma GivesUpExactly(at: Progress, schedule: Schedule, need: nat, maxIdle: nat)
    requires need > 0
    ensures var r := ReadExact(at, schedule, need, false, 0, maxIdle);
            && (Idle(schedule(at.calls)) ==> r == Stopped(IdleError, at.(calls := at.calls + 1)))
            && (r.Stopped? && r.error == IdleError && !Idle(schedule(at.calls)) ==>
                  IdleRun(schedule, r.after.calls, maxIdle + 1))
  {
    var next, o := at.(calls := at.calls + 1), schedule(at.calls);
    if o.Deliver? {
      var n := DeliverySize(o.atMost, need, |at.data|);
      if n > 0 {
        GivesUp(next.(data := at.data[n..]), schedule, need - n, 0, maxIdle);
      }
    }
  }

  /** And it does not survive that: among any so many calls of a read that fills its buffer, one is not
      idle. */
  lemma {:induction false} NeverWaitsLonger(at: Progress, schedule: Schedule, need: nat, started: bool, idle: nat,
                                            maxIdle: nat, from: nat)
    requires idle <= maxIdle && at.calls <= from + idle
    requires ReadExact(at, schedule, need, started, idle, maxIdle).Filled?
    requires from + maxIdle + 1 <= ReadExact(at, schedule, need, started, idle, maxIdle).after.calls
    ensures exists k :: from <= k < from + maxIdle + 1 && !Idle(schedule(k))
    decreases need, maxIdle - idle
  {
    var next, o := at.(calls := at.calls + 1), schedule(at.calls);
    if need == 0 {
    } else if o.Deliver? {
      if from <= at.calls {
        assert !Idle(schedule(at.calls));
      } else {
        var n := DeliverySize(o.atMost, need, |at.data|);
        NeverWaitsLonger(next.(data := at.data[n..]), schedule, need - n, true, 0, maxIdle, from);
      }
    } else {
      NeverWaitsLonger(next, schedule, need, started, idle + 1, maxIdle, from);
    }
  }

  // ---- whole messages ----

  datatype MessageResult = Received(message: Message, after: Progress) | Broken(error: IoError, after: Progress)

  /** `read_message_retrying`. */
  function ReadMessageRetrying(at: Progress, schedule: Schedule, maxIdle: nat): MessageResult {
    var header := ReadExact(at, schedule, HEADER_LEN, false, 0, maxIdle);
    if header.Stopped? then Broken(header.error, header.after)
    else
      ReadExactConsumes(at, schedule, HEADER_LEN, false, 0, maxIdle);
      var h := ParseHeader(header.got);
      if h.HeaderFailed? then Broken(Protocol(h.error), header.after)
      else
        var body := ReadExact(header.after, schedule, h.length, false, 0, maxIdle);
        if body.Stopped? then Broken(body.error, body.after)
        else Received(Message(h.ty, body.got), body.after)
  }

  lemma ParseHeaderPrefix(s: seq<byte>)
    requires |s| >= HEADER_LEN
    ensures ParseHeader(s) == ParseHeader(s[..HEADER_LEN])
  {
    hide U32At;
    assert s[..HEADER_LEN][3..7] == s[3..7];
    assert s[..HEADER_LEN][..2] == s[..2];
    SameU32(s, s[..HEADER_LEN], 3);
  }

  lemma SameU32(s: seq<byte>, t: seq<byte>, o: nat)
    requires |s| >= o + 4 && |t| >= o + 4 && s[o..o + 4] == t[o..o + 4]
    ensures U32At(s, o) == U32At(t, o)
  {
  }

  /** Apart from idle and other transport errors, the schedule does not matter: a message received
      is the one the plain reader returns, with exactly its frame consumed, and an end of stream or
      a malformed header is reported as the plain reader reports it. */
  lemma RetryingAgreesWithPlain(at: Progress, schedule: Schedule, maxIdle: nat)
    ensures match ReadMessageRetrying(at, schedule, maxIdle)
            case Received(m, after) => ReadMessage(at.data) == Read(m, after.data)
            case Broken(Eof, _) => ReadMessage(at.data) == ReadFailed(UnexpectedEof)
            case Broken(Protocol(e), _) => ReadMessage(at.data) == ReadFailed(e)
            case Broken(_, _) => true
  {
    hide ParseHeader, ReadExact;
    var header := ReadExact(at, schedule, HEADER_LEN, false, 0, maxIdle);
    ReadExactConsumes(at, schedule, HEADER_LEN, false, 0, maxIdle);
    if header.Filled? {
      ParseHeaderPrefix(at.data);
      if ParseHeader(header.got).Header? {
        var n := ParseHeader(header.got).length;
        ReadExactConsumes(header.after, schedule, n, false, 0, maxIdle);
        if ReadExact(header.after, schedule, n, false, 0, maxIdle).Filled? {
          assert at.data[HEADER_LEN..][..n] == at.data[HEADER_LEN..HEADER_LEN + n];
          assert at.data[HEADER_LEN..][n..] == at.data[HEADER_LEN + n..];
        }
      }
    }
  }

  /** So under any schedule nothing but a frame is received, whole and once; and bytes that do not
      begin one are refused for what they are, unless the transport fails first. */
  lemma ReceivesOnlyFrames(at: Progress, schedule: Schedule, maxIdle: nat)
    ensures var r := ReadMessageRetrying(at, schedule, maxIdle);
            && (r.Received? ==> at.data == EncodeMessage(r.message) + r.after.data && |r.message.payload| < U32_LIMIT)
            && (r.Broken? && r.error == Protocol(InvalidMagic) ==>
                  |at.data| >= 7 && !(at.data[0] == 0x47 && at.data[1] == 0x53))
            && (r.Broken? && r.error == Protocol(UnknownMessage) ==>
                  |at.data| >= 7 && at.data[0] == 0x47 && at.data[1] == 0x53 && !KnownType(at.data[2]))
            && (|at.data| >= 7 && !(at.data[0] == 0x47 && at.data[1] == 0x53) ==>
                  r.Broken? && r.error in {Protocol(InvalidMagic), IdleError, OtherError})
            && (|at.data| >= 7 && at.data[0] == 0x47 && at.data[1] == 0x53 && !KnownType(at.data[2]) ==>
                  r.Broken? && r.error in {Protocol(UnknownMessage), IdleError, OtherError})
  {
    hide ReadMessage, ReadMessageRetrying, EncodeMessage;
    var r := ReadMessageRetrying(at, schedule, maxIdle);
    RetryingAgreesWithPlain(at, schedule, maxIdle);
    RefusedExactly(at.data);
    if r.Received? {
      ReadExactly(at.data, r.message, r.after.data);
    } else {
      match r.error
      case Protocol(e) =>
      case _ =>
    }
  }

  /** An idle error leaves the stream untouched exactly when it struck the first read. */
  lemma IdleExactLoss(at: Progress, schedule: Schedule, need: nat, maxIdle: nat)
    requires need > 0
    ensures var r := ReadExact(at, schedule, need, false, 0, maxIdle);
            r == Stopped(IdleError, r.after) ==> (r.after.data == at.data <==> Idle(schedule(at.calls)))
  {
    var o := schedule(at.calls);
    if o.Deliver? {
      var n := DeliverySize(o.atMost, need, |at.data|);
      if n > 0 {
        var next := Progress(at.data[n..], at.calls + 1);
        ReadExactConsumes(next, schedule, need - n, true, 0, maxIdle);
        var r := ReadExact(at, schedule, need, false, 0, maxIdle);
        assert r.Stopped? ==> |r.after.data| < |at.data|;
      }
    }
  }

  /** After `TimedOut` or `WouldBlock` the caller simply reads again. That is safe exactly when the
      very first read was the one that went idle: a timeout between header and payload, or any
      later one, has already eaten part of the frame. */
  lemma ResumableExactly(at: Progress, schedule: Schedule, maxIdle: nat)
    ensures var r := ReadMessageRetrying(at, schedule, maxIdle);
            r == Broken(IdleError, r.after) ==> (r.after.data == at.data <==> Idle(schedule(at.calls)))
  {
    hide ParseHeader, ReadExact;
    var header := ReadExact(at, schedule, HEADER_LEN, false, 0, maxIdle);
    IdleExactLoss(at, schedule, HEADER_LEN, maxIdle);
    ReadExactConsumes(at, schedule, HEADER_LEN, false, 0, maxIdle);
    if header.Filled? {
      assert !Idle(schedule(at.calls)) by { FilledStarts(at, schedule, HEADER_LEN, maxIdle); }
      if ParseHeader(header.got).Header? {
        ReadExactConsumes(header.after, schedule, ParseHeader(header.got).length, false, 0, maxIdle);
      }
    }
  }

  lemma FilledStarts(at: Progress, schedule: Schedule, need: nat, maxIdle: nat)
    requires need > 0 && ReadExact(at, schedule, need, false, 0, maxIdle).Filled?
    ensures !Idle(schedule(at.calls))
  {
  }

  /** The case the caller cannot recover from: the header arrives, the payload's first read is idle. */
  lemma LostHeader(at: Progress, schedule: Schedule, maxIdle: nat, m: Message, tail: seq<byte>)
    requires 0 < |m.payload| < U32_LIMIT && at.data == EncodeMessage(m) + tail
    requires schedule(at.calls) == Deliver(HEADER_LEN) && Idle(schedule(at.calls + 1))
    ensures ReadMessageRetrying(at, schedule, maxIdle)
            == Broken(IdleError, Progress(m.payload + tail, at.calls + 2))
  {
    hide EncodeMessage, ParseHeader;
    var s := at.data;
    var after := Progress(s[HEADER_LEN..], at.calls + 1);
    assert ReadExact(after, schedule, 0, true, 0, maxIdle) == Filled([], after);
    assert s[..HEADER_LEN] + [] == s[..HEADER_LEN];
    assert ReadExact(at, schedule, HEADER_LEN, false, 0, maxIdle) == Filled(s[..HEADER_LEN], after);
    HeaderRoundTrip(m, tail);
    ParseHeaderPrefix(s);
    assert s[HEADER_LEN..] == m.payload + tail by {
      PayloadSlice(m, tail);
      assert s[HEADER_LEN + |m.payload|..] == tail;
      assert s[HEADER_LEN..] == s[HEADER_LEN..HEADER_LEN + |m.payload|] + s[HEADER_LEN + |m.payload|..];
    }
  }

  // ---- the loop itself ----

  datatype ReadStep = Bytes(n: nat) | Failed(error: IoError)

  class ByteStream {
    var data: seq<byte>
    var calls: nat
    const schedule: Schedule

    constructor (data: seq<byte>, schedule: Schedule)
      ensures At() == Progress(data, 0) && this.schedule == schedule
    {
      this.data, this.calls, this.schedule := data, 0, schedule;
    }

    ghost function At(): Progress
      reads this
    {
      Progress(data, calls)
    }

    /** `Read::read` into `buf[offset..]`. */
    method Read(buf: array<byte>, offset: nat) returns (r: ReadStep)
      requires offset < buf.Length
      modifies this, buf
      ensures calls == old(calls) + 1
      ensures forall i :: 0 <= i < offset ==> buf[i] == old(buf[i])
      ensures match schedule(old(calls))
              case Deliver(atMost) =>
                var n := DeliverySize(atMost, buf.Length - offset, |old(data)|);
                r == Bytes(n) && data == old(data)[n..] && buf[offset..offset + n] == old(data)[..n]
              case OtherFailure => r == Failed(OtherError) && data == old(data)
              case _ => r == Failed(IdleError) && data == old(data)
    {
      var o := schedule(calls);
      calls := calls + 1;
      match o
      case Deliver(atMost) =>
        var n := DeliverySize(atMost, buf.Length - offset, |data|);
        for i := 0 to n
          invariant data == old(data) && calls == old(calls) + 1
          invariant forall j :: 0 <= j < offset ==> buf[j] == old(buf[j])
          invariant forall j :: 0 <= j < i ==> buf[offset + j] == data[j]
        {
          buf[offset + i] := data[i];
        }
        data := data[n..];
        r := Bytes(n);
      case OtherFailure => r := Failed(OtherError);
      case TimedOut => r := Failed(IdleError);
      case WouldBlock => r := Failed(IdleError);
    }
  }

  /** One turn of the loop, by what the stream does. */
  lemma OneTurn(at: Progress, schedule: Schedule, need: nat, started: bool, idle: nat, maxIdle: nat)
    requires need > 0 && idle <= maxIdle
    ensures var r, next := ReadExact(at, schedule, need, started, idle, maxIdle), at.(calls := at.calls + 1);
            match schedule(at.calls)
            case Deliver(atMost) =>
              var n := DeliverySize(atMost, need, |at.data|);
              n <= |at.data|
              && (n == 0 ==> r == Stopped(Eof, next))
              && (n > 0 ==> r == PrependGot(at.data[..n],
                   ReadExact(Progress(at.data[n..], at.calls + 1), schedule, need - n, true, 0, maxIdle)))
            case OtherFailure => r == Stopped(OtherError, next)
            case _ => r == if !started || idle + 1 > maxIdle then Stopped(IdleError, next)
                           else ReadExact(next, schedule, need, started, idle + 1, maxIdle)
    ensures forall got, error, after :: PrependGot(got, Stopped(error, after)) == Stopped(error, after)
  {
  }

  lemma NoTurn(at: Progress, schedule: Schedule, started: bool, idle: nat, maxIdle: nat, got: seq<byte>)
    requires idle <= maxIdle
    ensures PrependGot(got, ReadExact(at, schedule, 0, started, idle, maxIdle)) == Filled(got, at)
  {
    assert got + [] == got;
  }

  /** `read_exact_retrying`: fills `buf` or reports why not. */
  method ReadExactRetrying(stream: ByteStream, buf: array<byte>, maxIdle: nat) returns (r: Option<IoError>)
    modifies stream, buf
    ensures ReadExact(old(stream.At()), stream.schedule, buf.Length, false, 0, maxIdle)
            == if r.None? then Filled(buf[..], stream.At()) else Stopped(r.value, stream.At())
  {
    hide PrependGot, ReadExact, DeliverySize;
    var offset, idle := 0, 0;
    ghost var whole := ReadExact(stream.At(), stream.schedule, buf.Length, false, 0, maxIdle);
    PrependNothing(whole);
    assert buf[..0] == [];
    while offset < buf.Length
      invariant offset <= buf.Length && idle <= maxIdle
      invariant whole == PrependGot(buf[..offset],
        ReadExact(stream.At(), stream.schedule, buf.Length - offset, offset > 0, idle, maxIdle))
      decreases buf.Length - offset, maxIdle - idle
    {
      ghost var before, filled := stream.At(), buf[..offset];
      OneTurn(before, stream.schedule, buf.Length - offset, offset > 0, idle, maxIdle);
      var step := stream.Read(buf, offset);
      assert buf[..offset] == filled;
      match step
      case Bytes(n) =>
        if n == 0 {
          return Some(Eof);
        }
        assert buf[..offset + n] == filled + before.data[..n];
        PrependTwice(filled, before.data[..n],
          ReadExact(stream.At(), stream.schedule, buf.Length - offset - n, true, 0, maxIdle));
        offset, idle := offset + n, 0;
      case Failed(error) =>
        if error == IdleError {
          if offset == 0 {
            return Some(error);
          }
          idle := idle + 1;
          if idle > maxIdle {
            return Some(error);
          }
        } else {
          return Some(error);
        }
    }
    NoTurn(stream.At(), stream.schedule, offset > 0, idle, maxIdle, buf[..offset]);
    assert buf[..offset] == buf[..];
    return None;
  }

  /** `read_message_retrying`. */
  method ReceiveMessage(stream: ByteStream, maxIdle: nat) returns (r: MessageResult)
    modifies stream
    ensures r == ReadMessageRetrying(old(stream.At()), stream.schedule, maxIdle)
    ensures r.after == stream.At()
  {
    var header := new byte[HEADER_LEN];
    var failure := ReadExactRetrying(stream, header, maxIdle);
    if failure.Some? {
      return Broken(failure.value, Progress(stream.data, stream.calls));
    }
    match ParseHeader(header[..])
    case HeaderFailed(error) =>
      return Broken(Protocol(error), Progress(stream.data, stream.calls));
    case Header(ty, length) =>
      var payload := new byte[length];
      failure := ReadExactRetrying(stream, payload, maxIdle);
      if failure.Some? {
        return Broken(failure.value, Progress(stream.data, stream.calls));
      }
      return Received(Message(ty, payload[..]), Progress(stream.data, stream.calls));
  }

  lemma PrependNothing(r: ExactResult)
    ensures PrependGot([], r) == r
  {
    if r.Filled? {
      assert [] + r.got == r.got;
    }
  }

  lemma PrependTwice(a: seq<byte>, b: seq<byte>, r: ExactResult)
    ensures PrependGot(a, PrependGot(b, r)) == PrependGot(a + b, r)
  {
    if r.Filled? {
      Assoc(a, b, r.got);
    }
  }
}
