/**
 * The WebSocket registry: broadcasts that may be interrupted between any two
 * sends by clients connecting and leaving, and by sends that fail.
 */
module FanOut {
  import opened Sequences

  type Client = nat
  type Message = string

  // ---- The registry by itself --------------------------------------------------------------

  /** An order in which the members of a set may be listed. */
  ghost predicate Lists(cs: seq<Client>, members: set<Client>) {
    Distinct(cs) && (forall i :: 0 <= i < |cs| ==> cs[i] in members) && forall c :: c in members ==> Occurs(cs, c)
  }

  class ConnectionRegistry {
    var connections: set<Client>

    constructor ()
      ensures connections == {}
    {
      connections := {};
    }

    method Add(c: Client)
      modifies this
      ensures connections == old(connections) + {c}
    {
      connections := connections + {c};
    }

    method Remove(c: Client)
      modifies this
      ensures connections == old(connections) - {c}
    {
      connections := connections - {c};
    }

    /**
     * With nothing in between: every member is sent the message once, and those
     * whose send raises are dropped. `reached` lists the sends that went through.
     */
    method Broadcast(targets: seq<Client>, alive: set<Client>) returns (reached: seq<Client>)
      requires Lists(targets, connections)
      modifies this
      ensures Distinct(reached)
      ensures forall c :: Occurs(reached, c) <==> c in old(connections) && c in alive
      ensures connections == old(connections) * alive
    {
      var dead: set<Client> := {};
      reached := [];
      for i := 0 to |targets|
        invariant connections == old(connections)
        invariant Distinct(reached)
        invariant forall c :: Occurs(reached, c) <==> c in alive && Occurs(targets[..i], c)
        invariant forall c :: c in dead <==> c !in alive && Occurs(targets[..i], c)
      {
        var ws := targets[i];
        forall c ensures Occurs(targets[..i + 1], c) <==> Occurs(targets[..i], c) || c == ws {
          OccursPrefix(targets, i, c);
        }
        assert !Occurs(targets[..i], ws);
        if ws in alive {
          forall c ensures Occurs(reached + [ws], c) <==> Occurs(reached, c) || c == ws {
            OccursNext(reached, ws, c);
          }
          assert forall k :: 0 <= k < |reached| ==> Occurs(reached, reached[k]);
          reached := reached + [ws];
        } else {
          dead := dead + {ws};
        }
      }
      assert targets[..|targets|] == targets;
      ListsMembers(targets, connections);
      if dead != {} {
        connections := connections - dead;
      }
    }
  }

  lemma ListsMembers(cs: seq<Client>, members: set<Client>)
    requires Lists(cs, members)
    ensures forall c :: Occurs(cs, c) <==> c in members
  {
    forall c ensures Occurs(cs, c) <==> c in members {
      if i :| 0 <= i < |cs| && cs[i] == c {
        assert cs[i] in members;
      }
    }
  }

  // ---- Interleavings -----------------------------------------------------------------------------

  /** What one connection has received, and the position in the stream at which it was added. */
  datatype Peer = Peer(joined: nat, sent: seq<Message>)

  /** Where the subscriber stands: waiting for a message, or `next` sends into a broadcast. */
  datatype Phase = Waiting | Sending(message: Message, targets: seq<Client>, next: nat, dead: set<Client>)

  /**
   * `peers` has every connection ever added; `removed` those that went away,
   * `failed` those a send to which has raised, `dropped` those a broadcast has
   * dropped; `stream` the messages broadcast so far, the current one included.
   */
  datatype State = State(
    registered: set<Client>, peers: map<Client, Peer>, removed: set<Client>, failed: set<Client>, dropped: set<Client>,
    stream: seq<Message>, phase: Phase)

  const INITIAL: State := State({}, map[], {}, {}, {}, [], Waiting)

  /** A connection is an object of its own, added once. */
  datatype Action =
    | Add(c: Client)
    | Remove(c: Client)
    | Start(message: Message, targets: seq<Client>)
    | Send(delivered: bool)
    | Finish

  ghost predicate Enabled(s: State, a: Action) {
    match a
    case Add(c) => c !in s.peers
    case Remove(c) => c in s.peers
    case Start(_, targets) => s.phase.Waiting? && Lists(targets, s.registered)
    case Send(_) => s.phase.Sending? && s.phase.next < |s.phase.targets| && s.phase.targets[s.phase.next] in s.peers
    case Finish => s.phase.Sending? && s.phase.next == |s.phase.targets|
  }

  ghost function Apply(s: State, a: Action): State
    requires Enabled(s, a)
  {
    match a
    case Add(c) => s.(registered := s.registered + {c}, peers := s.peers[c := Peer(|s.stream|, [])])
    case Remove(c) => s.(registered := s.registered - {c}, removed := s.removed + {c})
    case Start(message, targets) => s.(stream := s.stream + [message], phase := Sending(message, targets, 0, {}))
    case Send(delivered) =>
      var c, phase := s.phase.targets[s.phase.next], s.phase.(next := s.phase.next + 1);
      if delivered then
        s.(peers := s.peers[c := s.peers[c].(sent := s.peers[c].sent + [s.phase.message])], phase := phase)
      else
        s.(failed := s.failed + {c}, phase := phase.(dead := phase.dead + {c}))
    case Finish =>
      s.(registered := s.registered - s.phase.dead, dropped := s.dropped + s.phase.dead, phase := Waiting)
  }

  ghost predicate ValidRun(s: State, actions: seq<Action>)
    decreases |actions|
  {
    actions == [] || (Enabled(s, actions[0]) && ValidRun(Apply(s, actions[0]), actions[1..]))
  }

  ghost function Final(s: State, actions: seq<Action>): State
    requires ValidRun(s, actions)
    decreases |actions|
  {
    if actions == [] then s else Final(Apply(s, actions[0]), actions[1..])
  }

  // ---- Invariant -----------------------------------------------------------------------------------

  /** The current broadcast has yet to reach the connection. */
  predicate Pending(phase: Phase, c: Client) {
    phase.Sending? && exists k :: phase.next <= k < |phase.targets| && phase.targets[k] == c
  }

  /** Messages of the stream that the connection has been offered and has taken, one after another. */
  predicate Segment(p: Peer, stream: seq<Message>) {
    p.joined + |p.sent| <= |stream| && p.sent == stream[p.joined..p.joined + |p.sent|]
  }

  /** How far into the stream a connection that keeps up has got. */
  function Reached(s: State, c: Client): int {
    if Pending(s.phase, c) then |s.stream| - 1 else |s.stream|
  }

  ghost predicate PeersOk(s: State) {
    forall c :: c in s.peers ==>
      && Segment(s.peers[c], s.stream)
      && (Pending(s.phase, c) || (c in s.registered && c !in s.failed) ==>
            s.peers[c].joined + |s.peers[c].sent| == Reached(s, c))
  }

  ghost predicate MembersOk(s: State) {
    && s.registered == s.peers.Keys - s.removed - s.dropped
    && s.removed <= s.peers.Keys
    && s.failed == s.dropped + (if s.phase.Sending? then s.phase.dead else {})
    && s.failed <= s.peers.Keys
  }

  ghost predicate PhaseOk(s: State) {
    s.phase.Sending? ==>
      && s.phase.next <= |s.phase.targets| && Distinct(s.phase.targets)
      && s.stream != [] && s.stream[|s.stream| - 1] == s.phase.message
      && (forall k :: 0 <= k < |s.phase.targets| ==> s.phase.targets[k] in s.peers)
      && (forall k :: s.phase.next <= k < |s.phase.targets| ==> s.phase.targets[k] !in s.failed)
  }

  ghost predicate Inv(s: State) {
    PeersOk(s) && MembersOk(s) && PhaseOk(s)
  }

  lemma StepMembers(s: State, a: Action)
    requires Inv(s) && Enabled(s, a)
    ensures MembersOk(Apply(s, a))
  {
    hide PeersOk;
  }

  lemma StepPhase(s: State, a: Action)
    requires Inv(s) && Enabled(s, a)
    ensures PhaseOk(Apply(s, a))
  {
    hide PeersOk;
  }

  /** Starting a broadcast leaves every member one message behind; nobody else is touched. */
  lemma StartPeers(s: State, message: Message, targets: seq<Client>)
    requires Inv(s) && Enabled(s, Start(message, targets))
    ensures PeersOk(Apply(s, Start(message, targets)))
  {
    hide Segment;
    var n := Apply(s, Start(message, targets));
    forall c | c in n.peers
      ensures Segment(n.peers[c], n.stream)
      ensures Pending(n.phase, c) || (c in n.registered && c !in n.failed) ==>
                n.peers[c].joined + |n.peers[c].sent| == Reached(n, c)
    {
      SegmentGrows(s.peers[c], s.stream, message);
      if c in s.registered {
        assert Occurs(targets, c);
        assert Pending(n.phase, c);
      }
    }
  }

  lemma SegmentGrows(p: Peer, stream: seq<Message>, message: Message)
    requires Segment(p, stream)
    ensures Segment(p, stream + [message])
    ensures p.joined + |p.sent| == |stream| ==> Segment(p.(sent := p.sent + [message]), stream + [message])
  {
  }

  lemma SendPeers(s: State, delivered: bool)
    requires Inv(s) && Enabled(s, Send(delivered))
    ensures PeersOk(Apply(s, Send(delivered)))
  {
    hide MembersOk;
    var n, d := Apply(s, Send(delivered)), s.phase.targets[s.phase.next];
    forall c | c in n.peers
      ensures Segment(n.peers[c], n.stream)
      ensures Pending(n.phase, c) || (c in n.registered && c !in n.failed) ==>
                n.peers[c].joined + |n.peers[c].sent| == Reached(n, c)
    {
      PendingAfter(s.phase, n.phase, c);
      if c == d && delivered {
        assert Pending(s.phase, d);
        assert s.stream[..|s.stream| - 1] + [s.phase.message] == s.stream;
      }
    }
  }

  lemma PendingAfter(phase: Phase, later: Phase, c: Client)
    requires phase.Sending? && later.Sending? && phase.next < |phase.targets| && Distinct(phase.targets)
    requires later.targets == phase.targets && later.next == phase.next + 1
    ensures Pending(later, c) <==> Pending(phase, c) && c != phase.targets[phase.next]
  {
  }

  lemma OtherPeers(s: State, a: Action)
    requires Inv(s) && Enabled(s, a) && (a.Add? || a.Remove? || a.Finish?)
    ensures PeersOk(Apply(s, a))
  {
    var n := Apply(s, a);
    forall c | c in n.peers
      ensures Segment(n.peers[c], n.stream)
      ensures Pending(n.phase, c) || (c in n.registered && c !in n.failed) ==>
                n.peers[c].joined + |n.peers[c].sent| == Reached(n, c)
    {
    }
  }

  lemma StepKeeps(s: State, a: Action)
    requires Inv(s) && Enabled(s, a)
    ensures Inv(Apply(s, a))
  {
    hide PeersOk, MembersOk, PhaseOk, Enabled, Apply;
    StepMembers(s, a);
    StepPhase(s, a);
    match a {
      case Start(message, targets) => StartPeers(s, message, targets);
      case Send(delivered) => SendPeers(s, delivered);
      case _ => OtherPeers(s, a);
    }
  }

  lemma {:induction false} RunKeeps(s: State, actions: seq<Action>)
    requires Inv(s) && ValidRun(s, actions)
    ensures Inv(Final(s, actions))
    decreases |actions|
  {
    hide Inv, Enabled, Apply;
    if actions != [] {
      StepKeeps(s, actions[0]);
      RunKeeps(Apply(s, actions[0]), actions[1..]);
    }
  }

  // ---- Main results ----------------------------------------------------------------------------------

  /**
   * In every reachable state each connection has received one contiguous part of
   * the stream from where it joined, without gap or repetition; a member that
   * has not failed has received all of it, but for the message on its way; and
   * the members are those added, less those removed, less those dropped.
   */
  lemma GapFree(actions: seq<Action>)
    requires ValidRun(INITIAL, actions)
    ensures var s := Final(INITIAL, actions);
      && (forall c :: c in s.peers ==> Segment(s.peers[c], s.stream))
      && (forall c :: c in s.registered && c !in s.failed && !Pending(s.phase, c) ==>
            c in s.peers && s.peers[c].joined <= |s.stream| && s.peers[c].sent == s.stream[s.peers[c].joined..])
      && s.registered == s.peers.Keys - s.removed - s.dropped
      && (s.phase.Waiting? ==> s.dropped == s.failed)
  {
    RunKeeps(INITIAL, actions);
  }

  /** The messages whose broadcast was begun, in order. */
  function Broadcasts(actions: seq<Action>): seq<Message> {
    if actions == [] then [] else
    (if actions[0].Start? then [actions[0].message] else []) + Broadcasts(actions[1..])
  }

  lemma {:induction false} StreamIsBroadcasts(s: State, actions: seq<Action>)
    requires ValidRun(s, actions)
    ensures Final(s, actions).stream == s.stream + Broadcasts(actions)
    decreases |actions|
  {
    hide Enabled;
    if actions != [] {
      StreamIsBroadcasts(Apply(s, actions[0]), actions[1..]);
    }
  }

  lemma {:induction false} PeerStays(s: State, actions: seq<Action>, c: Client)
    requires ValidRun(s, actions) && c in s.peers
    ensures c in Final(s, actions).peers && Final(s, actions).peers[c].joined == s.peers[c].joined
    decreases |actions|
  {
    if actions != [] {
      PeerStays(Apply(s, actions[0]), actions[1..], c);
    }
  }

  lemma {:induction false} JoinedAt(s: State, actions: seq<Action>, k: nat, c: Client)
    requires ValidRun(s, actions) && k < |actions| && actions[k] == Add(c)
    ensures c in Final(s, actions).peers
    ensures Final(s, actions).peers[c].joined == |s.stream| + |Broadcasts(actions[..k])|
    decreases |actions|
  {
    var n := Apply(s, actions[0]);
    if k == 0 {
      PeerStays(n, actions[1..], c);
    } else {
      JoinedAt(n, actions[1..], k - 1, c);
      assert actions[..k][1..] == actions[1..][..k - 1];
    }
  }

  /**
   * Said of the run alone: a connection receives nothing that was broadcast
   * before it was added, and from there on the broadcasts one after another;
   * as long as it is a member and no send to it failed, all that are finished.
   */
  lemma ReceivesFromJoinOn(actions: seq<Action>, k: nat, c: Client)
    requires ValidRun(INITIAL, actions) && k < |actions| && actions[k] == Add(c)
    ensures var s, all, joined := Final(INITIAL, actions), Broadcasts(actions), |Broadcasts(actions[..k])|;
      && c in s.peers && joined + |s.peers[c].sent| <= |all|
      && s.peers[c].sent == all[joined..joined + |s.peers[c].sent|]
      && (c in s.registered && c !in s.failed ==>
            joined + |s.peers[c].sent| == if Pending(s.phase, c) then |all| - 1 else |all|)
  {
    hide Enabled, Apply;
    JoinedAt(INITIAL, actions, k, c);
    StreamIsBroadcasts(INITIAL, actions);
    assert INITIAL.stream + Broadcasts(actions) == Broadcasts(actions);
    RunKeeps(INITIAL, actions);
  }

  /** A connection whose send has failed receives nothing more. */
  lemma {:induction false} NothingAfterFailure(s: State, actions: seq<Action>, c: Client)
    requires Inv(s) && ValidRun(s, actions) && c in s.failed
    ensures var n := Final(s, actions); c in n.failed && c in s.peers && c in n.peers && n.peers[c] == s.peers[c]
    decreases |actions|
  {
    hide PeersOk;
    if actions != [] {
      StepKeeps(s, actions[0]);
      NothingAfterFailure(Apply(s, actions[0]), actions[1..], c);
    }
  }

  /** One that has left receives at most the message being broadcast when it left. */
  lemma {:induction false} LittleAfterRemoval(s: State, actions: seq<Action>, c: Client)
    requires Inv(s) && ValidRun(s, actions) && c in s.removed
    ensures var n := Final(s, actions);
      && c in s.peers && c in n.peers
      && n.peers[c].joined == s.peers[c].joined && s.peers[c].sent <= n.peers[c].sent
      && |n.peers[c].sent| <= |s.peers[c].sent| + if Pending(s.phase, c) then 1 else 0
    decreases |actions|
  {
    hide PeersOk;
    if actions != [] {
      var n := Apply(s, actions[0]);
      StepKeeps(s, actions[0]);
      RemovedStep(s, actions[0], c);
      LittleAfterRemoval(n, actions[1..], c);
    }
  }

  lemma RemovedStep(s: State, a: Action, c: Client)
    requires Inv(s) && Enabled(s, a) && c in s.removed
    ensures var n := Apply(s, a);
      && c in n.removed && c in s.peers && c in n.peers
      && n.peers[c].joined == s.peers[c].joined && s.peers[c].sent <= n.peers[c].sent
      && |n.peers[c].sent| + (if Pending(n.phase, c) then 1 else 0)
         <= |s.peers[c].sent| + (if Pending(s.phase, c) then 1 else 0)
  {
    hide PeersOk, Segment;
    var n := Apply(s, a);
    if a.Send? {
      PendingAfter(s.phase, n.phase, c);
      assert Pending(s.phase, s.phase.targets[s.phase.next]);
    } else if a.Start? {
      assert c !in s.registered;
    }
  }

  // ---- A broadcast that nothing interrupts ----------------------------------------------------------------

  /** The sends from the `i`-th target on, to whom they get through, and the clean-up. */
  function Sends(targets: seq<Client>, alive: set<Client>, i: nat): seq<Action>
    requires i <= |targets|
    decreases |targets| - i
  {
    if i == |targets| then [Finish] else [Send(targets[i] in alive)] + Sends(targets, alive, i + 1)
  }

  /** What the remaining sends leave: one more message for each live target, and the dead ones gone. */
  ghost predicate SentOut(s: State, n: State, rest: seq<Client>, alive: set<Client>)
    requires s.phase.Sending?
  {
    && n.phase.Waiting? && n.stream == s.stream && n.peers.Keys == s.peers.Keys
    && (forall c :: c in n.registered <==> c in s.registered && c !in s.phase.dead && !(Occurs(rest, c) && c !in alive))
    && (forall c :: c in s.peers ==>
          n.peers[c] == if Occurs(rest, c) && c in alive
                        then s.peers[c].(sent := s.peers[c].sent + [s.phase.message]) else s.peers[c])
  }

  lemma TargetOccurs(targets: seq<Client>, i: nat, c: Client)
    requires i < |targets| && Distinct(targets)
    ensures Occurs(targets[i..], c) <==> c == targets[i] || Occurs(targets[i + 1..], c)
    ensures !Occurs(targets[i + 1..], targets[i])
  {
    var rest := targets[i + 1..];
    OccursConcat([targets[i]], rest, c);
    assert targets[i..] == [targets[i]] + rest;
    assert Occurs([targets[i]], c) <==> c == targets[i] by {
      OccursNext([], targets[i], c);
      NoneOccur(c);
      assert [] + [targets[i]] == [targets[i]];
    }
  }

  /** One send, then what the remaining ones leave. */
  lemma SentNext(s: State, n: State, alive: set<Client>)
    requires PhaseOk(s) && s.phase.Sending? && s.phase.next < |s.phase.targets|
    requires var c := s.phase.targets[s.phase.next];
      Enabled(s, Send(c in alive)) && SentOut(Apply(s, Send(c in alive)), n, s.phase.targets[s.phase.next + 1..], alive)
    ensures SentOut(s, n, s.phase.targets[s.phase.next..], alive)
  {
    hide Occurs, Distinct;
    var targets, i := s.phase.targets, s.phase.next;
    forall d
      ensures Occurs(targets[i..], d) <==> d == targets[i] || Occurs(targets[i + 1..], d)
      ensures !Occurs(targets[i + 1..], targets[i])
    {
      TargetOccurs(targets, i, d);
    }
  }

  /** After the last send only the clean-up is left. */
  lemma SentLast(s: State, alive: set<Client>)
    requires Enabled(s, Finish)
    ensures SentOut(s, Apply(s, Finish), [], alive)
  {
    hide Occurs;
    forall d: Client ensures !Occurs([], d) {
      NoneOccur(d);
    }
  }

  lemma SendEnabled(s: State, delivered: bool)
    requires PhaseOk(s) && s.phase.Sending?
    ensures s.phase.next <= |s.phase.targets|
    ensures if s.phase.next < |s.phase.targets| then Enabled(s, Send(delivered)) else Enabled(s, Finish)
  {
  }

  lemma SendMoves(s: State, delivered: bool)
    requires Enabled(s, Send(delivered))
    ensures var n := Apply(s, Send(delivered));
      n.phase.Sending? && n.phase.targets == s.phase.targets && n.phase.next == s.phase.next + 1
  {
  }

  lemma RunNext(s: State, a: Action, rest: seq<Action>)
    requires Enabled(s, a) && ValidRun(Apply(s, a), rest)
    ensures ValidRun(s, [a] + rest) && Final(s, [a] + rest) == Final(Apply(s, a), rest)
  {
    assert ([a] + rest)[1..] == rest;
  }

  lemma {:induction false} SendsRun(s: State, alive: set<Client>)
    requires Inv(s) && s.phase.Sending? && s.phase.next <= |s.phase.targets|
    ensures var run := Sends(s.phase.targets, alive, s.phase.next);
      ValidRun(s, run) && SentOut(s, Final(s, run), s.phase.targets[s.phase.next..], alive)
    decreases |s.phase.targets| - s.phase.next
  {
    hide PeersOk, MembersOk, PhaseOk, Enabled, Apply, SentOut, ValidRun, Final;
    var targets, i := s.phase.targets, s.phase.next;
    if i == |targets| {
      SendEnabled(s, true);
      SentLast(s, alive);
      Nothing(Apply(s, Finish));
      RunNext(s, Finish, []);
      assert [Finish] + [] == [Finish] && targets[i..] == [];
    } else {
      var a := Send(targets[i] in alive);
      SendEnabled(s, a.delivered);
      SendMoves(s, a.delivered);
      StepKeeps(s, a);
      var n := Apply(s, a);
      SendsRun(n, alive);
      RunNext(s, a, Sends(targets, alive, i + 1));
      SentNext(s, Final(n, Sends(targets, alive, i + 1)), alive);
    }
  }

  lemma Nothing(s: State)
    ensures ValidRun(s, []) && Final(s, []) == s
  {
  }

  /** So with nothing in between the machine does what the method does: each live member is sent the message once. */
  lemma UninterruptedBroadcast(s: State, message: Message, targets: seq<Client>, alive: set<Client>)
    requires Inv(s) && Enabled(s, Start(message, targets))
    ensures var run := [Start(message, targets)] + Sends(targets, alive, 0);
      ValidRun(s, run) &&
      var n := Final(s, run);
      && n.registered == s.registered * alive && n.stream == s.stream + [message] && n.peers.Keys == s.peers.Keys
      && forall c :: c in s.peers ==>
           n.peers[c] == if c in s.registered && c in alive
                         then s.peers[c].(sent := s.peers[c].sent + [message]) else s.peers[c]
  {
    hide Inv, Sends, Occurs;
    var run := [Start(message, targets)] + Sends(targets, alive, 0);
    var s1 := Apply(s, Start(message, targets));
    StepKeeps(s, Start(message, targets));
    SendsRun(s1, alive);
    assert run[1..] == Sends(targets, alive, 0);
    assert targets[0..] == targets;
    ListsMembers(targets, s.registered);
  }
}
