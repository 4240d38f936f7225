/**
 * What one run of the consumer does with what the server sends: from framed
 * bytes to published events, positions taken and reports made.
 */
module PumpRuns {
  import opened Wrappers
  import opened Bytes
  import opened PgOutput
  import opened RoundTrip
  import opened Consumer
  import opened Framing

  /** What a turn of the pump finds: a data message, a keepalive, or nothing yet. */
  datatype Frame =
    | Data(start: nat, end: nat, clock: nat, message: RoundTrip.Message)
    | Alive(end: nat, clock: nat, reply: bool)
    | Idle

  /** The turn finds the frame, no one asks to stop, and its writes go out. */
  ghost predicate Brings(turn: Turn, f: Frame) {
    && !turn.stop && turn.io.Sent?
    && match f
       case Data(start, end, clock, m) => turn.polled == Polled.Message(XLogData(start, end, clock, m))
       case Alive(end, clock, reply) =>
         turn.polled == Polled.Message(Keepalive(end, clock, reply)) && turn.replyIo.Sent?
       case Idle => turn.polled == Empty(true)
  }

  ghost predicate BringAll(turns: seq<Turn>, frames: seq<Frame>) {
    |turns| == |frames| && forall i :: 0 <= i < |turns| ==> Brings(turns[i], frames[i])
  }

  function MessagesOf(frames: seq<Frame>): seq<RoundTrip.Message>
    decreases |frames|
  {
    if frames == [] then [] else
    (if frames[0].Data? then [frames[0].message] else []) + MessagesOf(frames[1..])
  }

  /** The positions the frames carry, in order. */
  function EndsOf(frames: seq<Frame>): seq<int>
    decreases |frames|
  {
    if frames == [] then [] else (if frames[0].Idle? then [] else [frames[0].end as int]) + EndsOf(frames[1..])
  }

  /** The highest of some positions and a base. */
  function Highest(base: int, ends: seq<int>): (h: int)
    ensures h >= base && (forall i :: 0 <= i < |ends| ==> h >= ends[i]) && (h == base || h in ends)
    decreases |ends|
  {
    if ends == [] then base else Highest(if base < ends[0] then ends[0] else base, ends[1..])
  }

  /** A relation is announced before its first change, and positions fit the wire. */
  ghost predicate FramesOk(known: Catalog, frames: seq<Frame>)
    decreases |frames|
  {
    frames == [] ||
    (&& (!frames[0].Idle? ==> Position(frames[0].end))
     && (frames[0].Data? ==> MessageOk(known, frames[0].message))
     && FramesOk(After(known, frames[0]), frames[1..]))
  }

  function After(known: Catalog, f: Frame): Catalog {
    if f.Data? then Announce(known, f.message) else known
  }

  /** The event a frame's message stands for. */
  ghost function Due(known: Catalog, f: Frame): seq<Event>
    requires CatalogOk(known) && (f.Data? ==> MessageOk(known, f.message))
  {
    if f.Data? then Opt(EventOf(known, f.message)) else []
  }

  lemma AfterOk(known: Catalog, f: Frame)
    requires CatalogOk(known) && (f.Data? ==> MessageOk(known, f.message))
    ensures CatalogOk(After(known, f))
  {
  }

  /** The first frame whose event the channel refuses, or their number. */
  ghost function FirstRefused(known: Catalog, frames: seq<Frame>, turns: seq<Turn>): (n: nat)
    requires CatalogOk(known) && FramesOk(known, frames) && |turns| == |frames|
    ensures n <= |frames|
    decreases |frames|
  {
    if frames == [] then 0
    else if Due(known, frames[0]) != [] && !turns[0].publishOk then 0
    else
      AfterOk(known, frames[0]);
      1 + FirstRefused(After(known, frames[0]), frames[1..], turns[1..])
  }

  /** Positions received, in order. */
  function Arrivals(trace: seq<Entry>): seq<int> {
    if trace == [] then [] else
    Arrivals(trace[..|trace| - 1]) + if trace[|trace| - 1].Received? then [trace[|trace| - 1].lsn] else []
  }

  lemma ArrivalsNext(trace: seq<Entry>, e: Entry)
    ensures Arrivals(trace + [e]) == Arrivals(trace) + if e.Received? then [e.lsn] else []
  {
    assert (trace + [e])[..|trace|] == trace;
  }

  lemma FeedbackSent(c: State, now: real, force: bool)
    ensures var (c1, raised) := Feedback(c, now, force, Sent);
      && !raised && c1.(trace := c.trace, lastFeedback := c.lastFeedback) == c
      && Arrivals(c1.trace) == Arrivals(c.trace)
      && now - c1.lastFeedback < 1.0 && (c1.lastFeedback == c.lastFeedback || c1.lastFeedback == now)
  {
    ArrivalsNext(c.trace, Confirmed(c.lastLsn, now, force));
  }

  // ---- One turn --------------------------------------------------------------------------------

  /**
   * A turn takes the frame's position, then caches and publishes what it carries
   * and goes on, its last report under a second old; if the publish raises the
   * run ends there with the position taken and nothing published.
   */
  lemma ServeTurn(c: State, known: Catalog, f: Frame, turn: Turn)
    requires CatalogOk(known) && Mirrors(c.cache, known) && FramesOk(known, [f]) && Brings(turn, f)
    ensures var (c1, next) := PumpTurn(c, turn);
      var due, refused := Due(known, f), Due(known, f) != [] && !turn.publishOk;
      && CatalogOk(After(known, f))
      && next == (if refused then Raised else Again)
      && c1.published == (if refused then c.published else c.published + due)
      && c1.lastLsn == Highest(c.lastLsn, EndsOf([f]))
      && Arrivals(c1.trace) == Arrivals(c.trace) + EndsOf([f])
      && (!refused ==> Mirrors(c1.cache, After(known, f)) && turn.clock - c1.lastFeedback < 1.0)
  {
    hide CatalogOk, Mirrors, MessageOk, OnCopy, Feedback, XLogData, Keepalive, Announce, EventOf, Position;
    assert EndsOf([f]) == if f.Idle? then [] else [f.end as int] by {
      assert [f][1..] == [];
    }
    match f {
      case Data(start, end, clock, m) =>
        DeliverData(c, known, start, end, clock, m, turn);
        var c0 := OnCopy(c, XLogData(start, end, clock, m), turn).0;
        ArrivalsNext(c.trace, Received(end));
        FeedbackSent(c0, turn.clock, false);
      case Alive(end, clock, reply) =>
        DeliverKeepalive(c, end, clock, reply, turn);
        var c0 := Advance(c, end);
        ArrivalsNext(c.trace, Received(end));
        FeedbackSent(c0, turn.replyClock, true);
        FeedbackSent(if reply then Feedback(c0, turn.replyClock, true, Sent).0 else c0, turn.clock, false);
      case Idle =>
        FeedbackSent(c, turn.clock, false);
    }
  }

  // ---- The pump -----------------------------------------------------------------------------------

  /** The events due before frame `n`. */
  ghost function EventsBefore(known: Catalog, frames: seq<Frame>, n: nat): seq<Event>
    requires CatalogOk(known) && FramesOk(known, frames) && n <= |frames|
    decreases |frames|
  {
    if n == 0 then [] else
    AfterOk(known, frames[0]);
    Due(known, frames[0]) + EventsBefore(After(known, frames[0]), frames[1..], n - 1)
  }

  /** They are the events of the messages, as the round trip decodes them. */
  lemma {:induction false} EventsBeforeAre(known: Catalog, frames: seq<Frame>, n: nat)
    requires CatalogOk(known) && FramesOk(known, frames) && n <= |frames|
    ensures StreamOk(known, MessagesOf(frames[..n]))
    ensures EventsBefore(known, frames, n) == EventsOf(known, MessagesOf(frames[..n]))
    decreases |frames|
  {
    hide CatalogOk, MessageOk, EventOf, Announce;
    if n > 0 {
      AfterOk(known, frames[0]);
      EventsBeforeAre(After(known, frames[0]), frames[1..], n - 1);
      assert frames[..n][1..] == frames[1..][..n - 1];
      var ms := MessagesOf(frames[..n]);
      if frames[0].Data? {
        assert ms[0] == frames[0].message && ms[1..] == MessagesOf(frames[1..][..n - 1]);
      } else {
        assert ms == MessagesOf(frames[1..][..n - 1]);
      }
    }
  }

  lemma {:induction false} HighestThen(base: int, a: seq<int>, b: seq<int>)
    ensures Highest(base, a + b) == Highest(Highest(base, a), b)
    decreases |a|
  {
    if a == [] {
      assert a + b == b;
    } else {
      assert (a + b)[1..] == a[1..] + b;
      HighestThen(if base < a[0] then a[0] else base, a[1..], b);
    }
  }

  /** What has been done with the frames before the first refused one, and with that one. */
  ghost predicate Served(c: State, c1: State, known: Catalog, frames: seq<Frame>, n: nat)
    requires CatalogOk(known) && FramesOk(known, frames) && n <= |frames|
  {
    var taken := EndsOf(if n == |frames| then frames else frames[..n + 1]);
    && c1.published == c.published + EventsBefore(known, frames, n)
    && c1.lastLsn == Highest(c.lastLsn, taken)
    && Arrivals(c1.trace) == Arrivals(c.trace) + taken
  }

  /**
   * The pump serves its frames in order and goes on with what follows them, or
   * raises at the first frame whose event is refused.
   */
  lemma {:induction false} PumpServes(c: State, known: Catalog, frames: seq<Frame>, turns: seq<Turn>, rest: seq<Turn>)
    returns (c1: State)
    requires CatalogOk(known) && Mirrors(c.cache, known) && FramesOk(known, frames) && BringAll(turns, frames)
    ensures var n := FirstRefused(known, frames, turns);
      && Served(c, c1, known, frames, n)
      && Pump(c, turns + rest) == (if n == |frames| then Pump(c1, rest) else (c1, Raised))
      && (n == |frames| && turns != [] ==> turns[|turns| - 1].clock - c1.lastFeedback < 1.0)
      && (frames == [] ==> c1 == c)
    decreases |frames|
  {
    hide CatalogOk, Mirrors, MessageOk, FramesOk, PumpTurn, Pump, Brings, Served, FirstRefused, Due, EndsOf, Highest,
         Arrivals;
    if frames == [] {
      assert turns + rest == rest;
      NoFrames(c, known, turns);
      c1 := c;
    } else {
      var f, turn := frames[0], turns[0];
      FirstFrame(known, frames);
      RefusedFirst(known, frames, turns);
      ServeTurn(c, known, f, turn);
      assert (turns + rest)[1..] == turns[1..] + rest;
      PumpNext(c, turns + rest);
      var (c0, next) := PumpTurn(c, turn);
      if next.Raised? {
        c1 := c0;
        ServedRefused(c, c1, known, frames);
      } else {
        c1 := PumpServes(c0, After(known, f), frames[1..], turns[1..], rest);
        ServedNext(c, c0, c1, known, frames, FirstRefused(After(known, f), frames[1..], turns[1..]));
      }
    }
  }

  lemma NoFrames(c: State, known: Catalog, turns: seq<Turn>)
    requires CatalogOk(known) && turns == []
    ensures FirstRefused(known, [], turns) == 0 && Served(c, c, known, [], 0)
  {
  }

  lemma RefusedFirst(known: Catalog, frames: seq<Frame>, turns: seq<Turn>)
    requires CatalogOk(known) && FramesOk(known, frames) && frames != [] && |turns| == |frames|
    ensures frames[0].Data? ==> MessageOk(known, frames[0].message)
    ensures CatalogOk(After(known, frames[0])) && FramesOk(After(known, frames[0]), frames[1..])
    ensures FirstRefused(known, frames, turns)
         == if Due(known, frames[0]) != [] && !turns[0].publishOk then 0
            else 1 + FirstRefused(After(known, frames[0]), frames[1..], turns[1..])
  {
    hide CatalogOk, MessageOk, Due;
    AfterOk(known, frames[0]);
  }

  lemma PumpNext(c: State, turns: seq<Turn>)
    requires turns != []
    ensures var (c1, next) := PumpTurn(c, turns[0]);
      Pump(c, turns) == if next.Again? then Pump(c1, turns[1..]) else (c1, next)
  {
    hide PumpTurn;
  }

  lemma ServedRefused(c: State, c1: State, known: Catalog, frames: seq<Frame>)
    requires CatalogOk(known) && FramesOk(known, frames) && frames != []
    requires c1.published == c.published && c1.lastLsn == Highest(c.lastLsn, EndsOf([frames[0]]))
    requires Arrivals(c1.trace) == Arrivals(c.trace) + EndsOf([frames[0]])
    ensures Served(c, c1, known, frames, 0)
  {
    hide CatalogOk, MessageOk, Due, EndsOf, Arrivals, Highest, FramesOk;
    assert frames[..1] == [frames[0]];
  }

  lemma ServedNext(c: State, c0: State, c1: State, known: Catalog, frames: seq<Frame>, m: nat)
    requires CatalogOk(known) && FramesOk(known, frames) && frames != []
    requires frames[0].Data? ==> MessageOk(known, frames[0].message)
    requires CatalogOk(After(known, frames[0])) && FramesOk(After(known, frames[0]), frames[1..]) && m <= |frames| - 1
    requires c0.published == c.published + Due(known, frames[0])
    requires c0.lastLsn == Highest(c.lastLsn, EndsOf([frames[0]]))
    requires Arrivals(c0.trace) == Arrivals(c.trace) + EndsOf([frames[0]])
    requires Served(c0, c1, After(known, frames[0]), frames[1..], m)
    ensures Served(c, c1, known, frames, m + 1)
  {
    hide CatalogOk, MessageOk, Due, EndsOf, Arrivals, Highest, FramesOk, Announce;
    EndsJoin(c.lastLsn, frames, m + 1);
  }

  lemma FirstFrame(known: Catalog, frames: seq<Frame>)
    requires FramesOk(known, frames) && frames != []
    ensures FramesOk(known, [frames[0]])
  {
    assert [frames[0]][1..] == [];
  }

  lemma HighestNone(base: int)
    ensures Highest(base, []) == base
  {
  }

  lemma EndsJoin(base: int, frames: seq<Frame>, n: nat)
    requires frames != [] && 0 < n <= |frames|
    ensures var rest := frames[1..];
      var taken, later := EndsOf(if n == |frames| then frames else frames[..n + 1]),
                          EndsOf(if n - 1 == |rest| then rest else rest[..n]);
      && taken == EndsOf([frames[0]]) + later
      && Highest(base, taken) == Highest(Highest(base, EndsOf([frames[0]])), later)
  {
    hide Highest;
    var all := if n == |frames| then frames else frames[..n + 1];
    assert all[1..] == (if n - 1 == |frames[1..]| then frames[1..] else frames[1..][..n]);
    assert [frames[0]][1..] == [];
    HighestThen(base, EndsOf([frames[0]]), EndsOf(all[1..]));
  }

  // ---- Main results ------------------------------------------------------------------------------

  /**
   * A run over well-formed frames, with nothing stopping it: if every publish goes
   * through it publishes exactly the watched rows' events, in order, takes every
   * position and ends at the highest; if one is refused it raises there, with
   * exactly the events before it published and its position taken.
   */
  lemma RunServes(channel: seq<Event>, frames: seq<Frame>, turns: seq<Turn>, startClock: real, exitClock: real,
      exitIo: Io)
    requires FramesOk(map[], frames) && BringAll(turns, frames)
    ensures var n := FirstRefused(map[], frames, turns);
      var taken := EndsOf(if n == |frames| then frames else frames[..n + 1]);
      var (c1, next) := Run(Fresh(channel), Script(true, startClock, turns, exitClock, exitIo));
      && next == (if n == |frames| then Returned else Raised)
      && StreamOk(map[], MessagesOf(frames[..n]))
      && c1.published == channel + EventsOf(map[], MessagesOf(frames[..n]))
      && c1.lastLsn == Highest(0, taken) && Arrivals(c1.trace) == taken
  {
    hide Served, EventsBefore, FirstRefused, PumpTurn, Brings, FramesOk, Highest, EventsOf, StreamOk;
    var c := Fresh(channel).(lastFeedback := startClock, streaming := true);
    var n := FirstRefused(map[], frames, turns);
    var c0 := PumpServes(c, map[], frames, turns, []);
    assert turns + [] == turns;
    EventsBeforeAre(map[], frames, n);
    ServedIs(c, c0, frames, n);
    ExitKeeps(c0, exitClock, exitIo);
    NothingMore(c0);
  }

  lemma ServedIs(c: State, c1: State, frames: seq<Frame>, n: nat)
    requires FramesOk(map[], frames) && n <= |frames| && Served(c, c1, map[], frames, n)
    requires c.lastLsn == 0 && c.trace == []
    ensures var taken := EndsOf(if n == |frames| then frames else frames[..n + 1]);
      && c1.published == c.published + EventsBefore(map[], frames, n)
      && c1.lastLsn == Highest(0, taken) && Arrivals(c1.trace) == taken
  {
    assert Arrivals(c.trace) == [];
  }

  lemma NothingMore(c: State)
    ensures Pump(c, []) == (c, Returned)
  {
  }

  /** The way out changes neither the channel nor the position, and reports it whenever the write goes out. */
  lemma ExitKeeps(c: State, clock: real, io: Io)
    ensures var c1 := Feedback(c, clock, true, io).0;
      && c1.published == c.published && c1.lastLsn == c.lastLsn && Arrivals(c1.trace) == Arrivals(c.trace)
      && c1.trace == c.trace + if io.PutFails? then [] else [Confirmed(c.lastLsn, clock, true)]
  {
    ArrivalsNext(c.trace, Confirmed(c.lastLsn, clock, true));
  }

  /**
   * However a started run ends, its last act is to report the position it has
   * reached, unless that write fails.
   */
  lemma RunReportsOnExit(channel: seq<Event>, turns: seq<Turn>, startClock: real, exitClock: real,
      exitIo: Io)
    requires !exitIo.PutFails?
    ensures var c1 := Run(Fresh(channel), Script(true, startClock, turns, exitClock, exitIo)).0;
      c1.trace != [] && c1.trace[|c1.trace| - 1] == Confirmed(c1.lastLsn, exitClock, true)
  {
    hide Pump;
    ExitKeeps(Pump(Fresh(channel).(lastFeedback := startClock, streaming := true), turns).0, exitClock, exitIo);
  }

  /** A keepalive that asks for a reply gets one at once, whatever the time of the last report. */
  lemma KeepaliveAnswered(c: State, end: nat, clock: nat, turn: Turn)
    requires Position(end) && turn.replyIo.Sent?
    ensures var (c1, raised) := OnCopy(c, Keepalive(end, clock, true), turn);
      && !raised && c1.lastLsn == Highest(c.lastLsn, [end as int])
      && c1.trace == c.trace + [Received(end)] + [Confirmed(c1.lastLsn, turn.replyClock, true)]
  {
    hide Keepalive, OnCopy;
    DeliverKeepalive(c, end, clock, true, turn);
  }

  /**
   * After its frames the pump stops where the next turn says so: it returns when
   * asked to stop or at the end of the stream, and raises on a stream error or a
   * failed read, having served exactly those frames.
   */
  lemma PumpCut(c: State, known: Catalog, frames: seq<Frame>, turns: seq<Turn>, last: Turn, unread: seq<Turn>)
    requires CatalogOk(known) && Mirrors(c.cache, known) && FramesOk(known, frames) && BringAll(turns, frames)
    requires FirstRefused(known, frames, turns) == |frames|
    requires last.stop || last.polled == Ended || last.polled == StreamError || last.polled == Empty(false)
    ensures var (c1, next) := Pump(c, turns + ([last] + unread));
      Served(c, c1, known, frames, |frames|) && next == if last.stop || last.polled == Ended then Returned else Raised
  {
    hide Served, FirstRefused, BringAll, FramesOk;
    var c1 := PumpServes(c, known, frames, turns, [last] + unread);
    assert ([last] + unread)[0] == last;
  }

  /** A message that does not decode ends the run: its position is taken, nothing is published or cached. */
  lemma MalformedRaises(c: State, msg: bytes, turn: Turn)
    requires |msg| >= 25 && msg[0] == 0x77 && DecodeMessage(c.cache, msg[25..]).Failure?
    ensures var (c1, raised) := OnCopy(c, msg, turn);
      && raised && c1.published == c.published && c1.cache == c.cache
      && c1.lastLsn == Highest(c.lastLsn, [Signed(FromBE(msg[9..17]), 8)])
  {
    hide DecodeMessage, FromBE, Signed;
    assert Slice(msg, 0, 1) == [0x77] && Slice(msg, 25, |msg|) == msg[25..];
  }

  // ---- Reports keep up -------------------------------------------------------------------------------

  /** A report was made at the time, and went out at least as far as the write. */
  ghost predicate ReportedAt(trace: seq<Entry>, at: real) {
    exists i :: 0 <= i < |trace| && trace[i].Confirmed? && trace[i].at == at
  }

  /** The clock mark is the start of the run or the time of some report. */
  ghost predicate Marked(c: State, start: real) {
    c.lastFeedback == start || ReportedAt(c.trace, c.lastFeedback)
  }

  lemma FeedbackMarks(c: State, start: real, now: real, force: bool, io: Io)
    requires Marked(c, start)
    ensures Marked(Feedback(c, now, force, io).0, start)
  {
    var c1 := Feedback(c, now, force, io).0;
    if c1.trace != c.trace {
      assert c1.trace[|c.trace|].at == now;
    }
    if i :| 0 <= i < |c.trace| && c.trace[i].Confirmed? && c.trace[i].at == c.lastFeedback {
      assert c1.trace[i] == c.trace[i];
    }
  }

  lemma ReceiveMarks(c: State, start: real, lsn: int)
    requires Marked(c, start)
    ensures Marked(Advance(c, lsn), start)
  {
    if i :| 0 <= i < |c.trace| && c.trace[i].Confirmed? && c.trace[i].at == c.lastFeedback {
      assert Advance(c, lsn).trace[i] == c.trace[i];
    }
  }

  lemma OnCopyMarks(c: State, start: real, msg: bytes, turn: Turn)
    requires Marked(c, start)
    ensures Marked(OnCopy(c, msg, turn).0, start)
  {
    hide Feedback, FromBE, Signed, Slice, IntAt, DecodeMessage, ReportedAt;
    if IntAt(msg, 9, 8).Success? {
      ReceiveMarks(c, start, IntAt(msg, 9, 8).value.0);
    }
    if |msg| >= 18 {
      var lsn := Signed(FromBE(msg[1..9]), 8);
      ReceiveMarks(c, start, lsn);
      FeedbackMarks(Advance(c, lsn), start, turn.replyClock, true, turn.replyIo);
    }
  }

  lemma TurnMarks(c: State, start: real, turn: Turn)
    requires Marked(c, start)
    ensures Marked(PumpTurn(c, turn).0, start)
  {
    hide Feedback, OnCopy, Marked;
    FeedbackMarks(c, start, turn.clock, false, turn.io);
    if turn.polled.Message? {
      OnCopyMarks(c, start, turn.polled.msg, turn);
      FeedbackMarks(OnCopy(c, turn.polled.msg, turn).0, start, turn.clock, false, turn.io);
    }
  }

  lemma {:induction false} PumpMarks(c: State, start: real, turns: seq<Turn>)
    requires Marked(c, start)
    ensures Marked(Pump(c, turns).0, start)
    decreases |turns|
  {
    hide PumpTurn, Marked;
    if turns != [] {
      TurnMarks(c, start, turns[0]);
      PumpMarks(PumpTurn(c, turns[0]).0, start, turns[1..]);
    }
  }

  /** When a pump has served its frames, its last report, or its start, is less than a second old. */
  lemma ReportsKeepUp(known: Catalog, c: State, frames: seq<Frame>, turns: seq<Turn>)
    requires CatalogOk(known) && Mirrors(c.cache, known) && FramesOk(known, frames) && BringAll(turns, frames)
    requires turns != [] && FirstRefused(known, frames, turns) == |frames|
    ensures var (c1, now) := (Pump(c, turns).0, turns[|turns| - 1].clock);
      || now - c.lastFeedback < 1.0
      || exists i :: 0 <= i < |c1.trace| && c1.trace[i].Confirmed? && now - c1.trace[i].at < 1.0
  {
    hide Served, FirstRefused, Brings, FramesOk, Pump, Mirrors, CatalogOk;
    var c1 := PumpServes(c, known, frames, turns, []);
    assert turns + [] == turns;
    NothingMore(c1);
    PumpMarks(c, c.lastFeedback, turns);
  }
}
