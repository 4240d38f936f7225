/**
 * `CdcConsumer`: the copy-stream framing, the feedback, the pump and one run.
 * The class changes its fields as the source does; each method is proved equal
 * to a function of the old state, which the protocol proofs then reason about.
 * The connection, Redis and the clock are oracles given as a script.
 */
module Consumer {
  import opened Wrappers
  import opened Bytes
  import opened PgOutput
  import Decoder

  /** Positions as they cross the wire: received, or reported back at a time. */
  datatype Entry = Received(lsn: int) | Confirmed(lsn: int, at: real, forced: bool)

  /** How one attempt to write feedback goes. */
  datatype Io = Sent | PutFails | FlushFails

  /** What `get_copy_data` returns: end, error, nothing buffered, or a message. */
  datatype Polled = Ended | StreamError | Empty(inputOk: bool) | Message(msg: bytes)

  /** Everything one turn of the pump loop observes. */
  datatype Turn = Turn(stop: bool, polled: Polled, publishOk: bool, replyClock: real, replyIo: Io, clock: real, io: Io)

  /** One `run`: whether the stream starts, the turns, and the way out. */
  datatype Script = Script(startOk: bool, startClock: real, turns: seq<Turn>, exitClock: real, exitIo: Io)

  datatype State = State(
    cache: Cache, lastLsn: int, lastFeedback: real, streaming: bool, published: seq<Event>, trace: seq<Entry>)

  function Fresh(published: seq<Event>): State {
    State(map[], 0, 0.0, false, published, [])
  }

  const FEEDBACK_INTERVAL: real := 1.0

  // ---- Specification -----------------------------------------------------------

  /** `_send_feedback`; the flag says whether it raises. */
  function Feedback(s: State, now: real, force: bool, io: Io): (State, bool) {
    if !force && now - s.lastFeedback < FEEDBACK_INTERVAL then (s, false) else
    var entry := Confirmed(s.lastLsn, now, force);
    match io
    case Sent => (s.(trace := s.trace + [entry], lastFeedback := now), false)
    case FlushFails => (s.(trace := s.trace + [entry]), true)
    case PutFails => (s, true)
  }

  function Advance(s: State, lsn: int): State {
    s.(lastLsn := Max(s.lastLsn, lsn), trace := s.trace + [Received(lsn)])
  }

  /** `_decode_pgoutput`: the cache is filled and the event published, or it raises. */
  function Consume(s: State, payload: bytes, publishOk: bool): (State, bool) {
    match DecodeMessage(s.cache, payload)
    case Failure(_) => (s, true)
    case Success(d) =>
      if d.event.None? then (s.(cache := d.cache), false)
      else if publishOk then (s.(cache := d.cache, published := s.published + [d.event.value]), false)
      else (s, true)
  }

  /** `_on_copy_message`: XLogData ('w') or keepalive ('k'); others are ignored. */
  function OnCopy(s: State, msg: bytes, turn: Turn): (State, bool) {
    var tag := Slice(msg, 0, 1);
    if tag == [0x77] then
      match IntAt(msg, 9, 8)
      case Failure(_) => (s, true)
      case Success((walEnd, _)) => Consume(Advance(s, walEnd), Slice(msg, 25, |msg|), turn.publishOk)
    else if tag == [0x6B] then
      if |msg| < 18 then (s, true) else
      var s1 := Advance(s, Signed(FromBE(msg[1..9]), 8));
      if msg[17] != 0 then Feedback(s1, turn.replyClock, true, turn.replyIo) else (s1, false)
    else (s, false)
  }

  datatype Next = Again | Returned | Raised

  /** One turn of the pump loop. */
  function PumpTurn(s: State, turn: Turn): (State, Next) {
    if turn.stop then (s, Returned) else
    match turn.polled
    case Ended => (s, Returned)
    case StreamError => (s, Raised)
    case Empty(inputOk) =>
      if !inputOk then (s, Raised) else
      var (s1, raised) := Feedback(s, turn.clock, false, turn.io);
      (s1, if raised then Raised else Again)
    case Message(msg) =>
      var (s1, raised) := OnCopy(s, msg, turn);
      if raised then (s1, Raised) else
      var (s2, raised2) := Feedback(s1, turn.clock, false, turn.io);
      (s2, if raised2 then Raised else Again)
  }

  /** The pump over a script; the script running out stands for `stop`. */
  function Pump(s: State, turns: seq<Turn>): (State, Next)
    decreases |turns|
  {
    if turns == [] then (s, Returned) else
    var (s1, next) := PumpTurn(s, turns[0]);
    if next.Again? then Pump(s1, turns[1..]) else (s1, next)
  }

  function Run(s: State, script: Script): (State, Next) {
    var (s1, next) :=
      if script.startOk then Pump(s.(lastFeedback := script.startClock, streaming := true), script.turns)
      else (s, Raised);
    (Feedback(s1, script.exitClock, true, if script.startOk then script.exitIo else PutFails).0, next)
  }

  // ---- Implementation ------------------------------------------------------------

  class CdcConsumer {
    var streaming: bool
    var relations: Cache
    var lastLsn: int
    var lastFeedback: real
    var published: seq<Event>  // the channel's contents, to which `publish` appends
    ghost var trace: seq<Entry>

    ghost function Now(): State
      reads this
    {
      State(relations, lastLsn, lastFeedback, streaming, published, trace)
    }

    constructor (published: seq<Event>)
      ensures Now() == Fresh(published)
    {
      streaming, relations, lastLsn, lastFeedback := false, map[], 0, 0.0;
      this.published := published;
      trace := [];
    }

    method SendFeedback(now: real, force: bool, io: Io) returns (raised: bool)
      modifies this
      ensures (Now(), raised) == Feedback(old(Now()), now, force, io)
      ensures streaming == old(streaming) && relations == old(relations) && lastLsn == old(lastLsn)
      ensures published == old(published)
      ensures raised <==> (force || now - old(lastFeedback) >= 1.0) && !io.Sent?
      ensures trace == old(trace) + if (force || now - old(lastFeedback) >= 1.0) && !io.PutFails?
                                    then [Confirmed(old(lastLsn), now, force)] else []
      ensures lastFeedback == if (force || now - old(lastFeedback) >= 1.0) && io.Sent? then now else old(lastFeedback)
    {
      if !force && now - lastFeedback < FEEDBACK_INTERVAL {
        return false;
      }
      if io.PutFails? {
        return true;
      }
      trace := trace + [Confirmed(lastLsn, now, force)];
      if io.FlushFails? {
        return true;
      }
      lastFeedback := now;
      raised := false;
    }

    method DecodePgoutput(payload: bytes, publishOk: bool) returns (raised: bool)
      modifies this
      ensures (Now(), raised) == Consume(old(Now()), payload, publishOk)
      ensures streaming == old(streaming) && lastLsn == old(lastLsn) && lastFeedback == old(lastFeedback)
      ensures trace == old(trace)
      ensures raised ==> relations == old(relations) && published == old(published)
      ensures var d := DecodeMessage(old(relations), payload);
        && (raised <==> d.Failure? || (d.value.event.Some? && !publishOk))
        && (!raised ==> relations == d.value.cache
                        && published == old(published) + if d.value.event.Some? then [d.value.event.value] else [])
    {
      var d := Decoder.Decode(relations, payload);
      if d.Failure? || (d.value.event.Some? && !publishOk) {
        return true;
      }
      relations := d.value.cache;
      if d.value.event.Some? {
        published := published + [d.value.event.value];
      }
      raised := false;
    }

    method OnCopyMessage(msg: bytes, turn: Turn) returns (raised: bool)
      modifies this
      ensures (Now(), raised) == OnCopy(old(Now()), msg, turn)
      ensures msg == [] || (msg[0] != 0x77 && msg[0] != 0x6B) ==> !raised && Now() == old(Now())
      ensures |msg| >= 17 && msg[0] == 0x77 ==> lastLsn == Max(old(lastLsn), Signed(FromBE(msg[9..17]), 8))
      ensures |msg| >= 18 && msg[0] == 0x6B ==>
        && lastLsn == Max(old(lastLsn), Signed(FromBE(msg[1..9]), 8))
        && relations == old(relations) && published == old(published)
    {
      var tag := Slice(msg, 0, 1);
      if tag == [0x77] {
        var walEnd := IntAt(msg, 9, 8);
        if walEnd.Failure? {
          return true;
        }
        lastLsn := Max(lastLsn, walEnd.value.0);
        trace := trace + [Received(walEnd.value.0)];
        raised := DecodePgoutput(Slice(msg, 25, |msg|), turn.publishOk);
      } else if tag == [0x6B] {
        if |msg| < 18 {
          return true;
        }
        var walEnd := Signed(FromBE(msg[1..9]), 8);
        lastLsn := Max(lastLsn, walEnd);
        trace := trace + [Received(walEnd)];
        raised := false;
        if msg[17] != 0 {
          raised := SendFeedback(turn.replyClock, true, turn.replyIo);
        }
      } else {
        raised := false;
      }
    }

    method PumpLoop(turns: seq<Turn>) returns (next: Next)
      modifies this
      ensures (Now(), next) == Pump(old(Now()), turns)
      ensures !next.Again?
    {
      var i := 0;
      while i < |turns| && !turns[i].stop
        invariant 0 <= i <= |turns|
        invariant Pump(old(Now()), turns) == Pump(Now(), turns[i..])
      {
        var turn := turns[i];
        assert turns[i..][1..] == turns[i + 1..];
        match turn.polled {
          case Ended => return Returned;
          case StreamError => return Raised;
          case Empty(inputOk) =>
            if !inputOk {
              return Raised;
            }
          case Message(msg) =>
            var raised := OnCopyMessage(msg, turn);
            if raised {
              return Raised;
            }
        }
        var raised := SendFeedback(turn.clock, false, turn.io);
        if raised {
          return Raised;
        }
        i := i + 1;
      }
      next := Returned;
    }

    method RunStream(script: Script) returns (next: Next)
      modifies this
      ensures (Now(), next) == Run(old(Now()), script)
      ensures !script.startOk ==> next == Raised && Now() == old(Now())
    {
      if script.startOk {
        lastFeedback := script.startClock;
        streaming := true;
        next := PumpLoop(script.turns);
      } else {
        next := Raised;
      }
      var _ := SendFeedback(script.exitClock, true, if script.startOk then script.exitIo else PutFails);
    }
  }
}
