/**
 * Copy-stream framing, PostgreSQL 16 section 55.4: what one framed message does
 * to the consumer. Bytes end here; the protocol works on these effects.
 */
module Framing {
  import opened Wrappers
  import opened Bytes
  import opened PgOutput
  import opened RoundTrip
  import opened Consumer

  predicate Position(lsn: nat) {
    2 * lsn < Pow256(8)
  }

  function XLogData(start: nat, end: nat, clock: nat, m: Message): bytes {
    [0x77] + (ToBE(start, 8) + (ToBE(end, 8) + (ToBE(clock, 8) + Encode(m))))
  }

  function Keepalive(end: nat, clock: nat, reply: bool): bytes {
    [0x6B] + (ToBE(end, 8) + (ToBE(clock, 8) + [if reply then 1 else 0]))
  }

  lemma XLogParts(start: nat, end: nat, clock: nat, m: Message)
    requires Position(end)
    ensures var msg := XLogData(start, end, clock, m);
      && Slice(msg, 0, 1) == [0x77] && IntAt(msg, 9, 8) == Success((end, 17)) && Slice(msg, 25, |msg|) == Encode(m)
  {
    hide Pow256, ToBE, FromBE, Encode, At;
    var msg := XLogData(start, end, clock, m);
    assert msg[9..17] == ToBE(end, 8);
    assert msg[25..] == Encode(m);
    FromToBE(end, 8);
  }

  lemma KeepaliveParts(end: nat, clock: nat, reply: bool)
    requires Position(end)
    ensures var msg := Keepalive(end, clock, reply);
      && Slice(msg, 0, 1) == [0x6B] && |msg| == 18 && Signed(FromBE(msg[1..9]), 8) == end && (msg[17] != 0 <==> reply)
  {
    hide Pow256, ToBE, FromBE;
    var msg := Keepalive(end, clock, reply);
    assert msg[1..9] == ToBE(end, 8);
    FromToBE(end, 8);
  }

  /**
   * A framed message moves the position before it is decoded, then fills the
   * cache and publishes its event, unless the publish raises.
   */
  lemma DeliverData(c: State, known: Catalog, start: nat, end: nat, clock: nat, m: Message, turn: Turn)
    requires CatalogOk(known) && Mirrors(c.cache, known) && MessageOk(known, m) && Position(end)
    ensures CatalogOk(Announce(known, m))
    ensures var (c1, raised) := OnCopy(c, XLogData(start, end, clock, m), turn);
      var due := Opt(EventOf(known, m));
      && raised == (due != [] && !turn.publishOk)
      && c1.lastLsn == Max(c.lastLsn, end) && c1.trace == c.trace + [Received(end)]
      && c1.published == (if raised then c.published else c.published + due)
      && Mirrors(c1.cache, if raised then known else Announce(known, m))
  {
    hide CatalogOk, Mirrors, MessageOk, XLogData, Encode, DecodeMessage, EventOf, Announce, At, IntAt, Slice;
    XLogParts(start, end, clock, m);
    AtWhole(Encode(m), Encode(m), 0, []);
    DecodeEncoded(c.cache, known, m, Encode(m));
  }

  lemma DeliverKeepalive(c: State, end: nat, clock: nat, reply: bool, turn: Turn)
    requires Position(end)
    ensures OnCopy(c, Keepalive(end, clock, reply), turn)
         == if reply then Feedback(Advance(c, end), turn.replyClock, true, turn.replyIo) else (Advance(c, end), false)
  {
    hide Keepalive, FromBE, IntAt, Slice, Signed;
    KeepaliveParts(end, clock, reply);
  }
}
