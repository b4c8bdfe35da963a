/** When a reachable state of the handshake can still send everything. */
module HandshakeCompletion {
  import opened HandshakeSpec
  import opened HandshakeSafety
  import opened HandshakeDelivery

  /** The subscriber can still get ready and be ready to confirm: it has not started, or the pollers it still needs are
      open. */
  predicate Confirmable(s: SubState) { !s.started || ((s.readyToConfirm || s.syncOpen) && (s.ready || s.open)) }

  /** The confirmation was counted, or it still can be: the publisher's poller for it is `open`, and the confirmation is
      under way, or has not been given and can be. */
  predicate Countable(p: Peer, open: bool) {
    p.link.counted || (open && (p.link.pending || (p.link.confirms == 0 && Confirmable(p.sub))))
  }

  ghost predicate AllCountable(w: World) {
    |w.pub.syncOpen| == |w.peers| && forall i | 0 <= i < |w.peers| :: Countable(w.peers[i], w.pub.syncOpen[i])
  }

  lemma {:induction false} InvSteps(w: World, actions: seq<Action>)
    requires Inv(w)
    ensures Inv(Steps(w, actions))
  {
    if actions != [] {
      InvSteps(w, actions[..|actions| - 1]);
      InvAct(Steps(w, actions[..|actions| - 1]), actions[|actions| - 1]);
    }
  }

  // ----- one more confirmation -----

  /** The subscriber once it has joined, started and polled its sync socket. */
  function Brought(p: Peer): Peer {
    var joined := p.(link := p.link.(joined := true));
    Synced(if joined.sub.started then joined else Started(joined, 0), true)
  }

  /** Then it hears an invitation. */
  function Asked(p: Peer): Peer { HearUpTo(Receive(Brought(p), [Control(CONNECT)]), 1) }

  lemma {:induction false} BroughtMeans(p: Peer, sent: seq<string>)
    requires Good(p, sent, false) && !p.link.counted && Countable(p, true)
    ensures var q := Brought(p);
            && q.link.joined && !q.link.counted
            && (q.link.pending || (q.sub.open && !q.sub.ready && q.sub.readyToConfirm && END !in Texts(q.link.channel)))
  {
  }

  lemma {:induction false} HearOne(p: Peer)
    requires p.sub.open && p.link.channel != []
    ensures HearUpTo(p, 1) == HearFirst(p)
  {
    assert HearUpTo(HearFirst(p), 0) == HearFirst(p);
  }

  lemma {:induction false} AskedMeans(p: Peer, sent: seq<string>)
    requires Good(p, sent, false) && !p.link.counted && Countable(p, true)
    ensures Asked(p).link.pending && !Asked(p).link.counted
  {
    var q := Receive(Brought(p), [Control(CONNECT)]);
    BroughtMeans(p, sent);
    if q.sub.open {
      HearOne(q);
      if !q.link.pending { FirstIsNotEnd(Brought(p).link.channel); }
    }
  }

  lemma {:induction false} FirstIsNotEnd(channel: seq<Message>)
    requires END !in Texts(channel)
    ensures (channel + [Control(CONNECT)])[0].text != END
  {
    if channel != [] { assert Texts(channel)[0] in Texts(channel); }
  }

  /** The subscriber with index `i` comes up, is invited, confirms, and is counted. */
  function Round(i: nat): seq<Action> {
    [Join(i), SubStart(i, 0), SubSync(i, true)] + (Invite() + [SubPoll(i, 1, false), PubSync(i, false)])
  }

  lemma {:induction false} TwoSteps(w: World, a: Action, b: Action)
    ensures Steps(w, [a, b]) == Act(Act(w, a), b)
  {
    StepsSnoc(w, [], a);
    StepsSnoc(w, [a], b);
    assert [] + [a] == [a] && [a] + [b] == [a, b];
  }

  lemma {:induction false} ThreeSteps(w: World, a: Action, b: Action, c: Action)
    ensures Steps(w, [a, b, c]) == Act(Act(Act(w, a), b), c)
  {
    TwoSteps(w, a, b);
    StepsSnoc(w, [a, b], c);
    assert [a, b] + [c] == [a, b, c];
  }

  lemma {:induction false} ComesUp(w: World, i: nat)
    requires i < |w.peers|
    ensures Steps(w, [Join(i), SubStart(i, 0), SubSync(i, true)]) == w.(peers := w.peers[i := Brought(w.peers[i])])
  {
    var joined := w.peers[i].(link := w.peers[i].link.(joined := true));
    var started := if joined.sub.started then joined else Started(joined, 0);
    var w1, w2 := w.(peers := w.peers[i := joined]), w.(peers := w.peers[i := started]);
    assert Act(w, Join(i)) == w1;
    assert w1.peers[i := started] == w2.peers && (joined.sub.started ==> w1 == w2);
    assert Act(w1, SubStart(i, 0)) == w2;
    assert w2.peers[i := Brought(w.peers[i])] == w.peers[i := Brought(w.peers[i])];
    assert Act(w2, SubSync(i, true)) == w.(peers := w.peers[i := Brought(w.peers[i])]);
    ThreeSteps(w, Join(i), SubStart(i, 0), SubSync(i, true));
  }

  /** The publisher invites; while some are not counted it sends nothing else. */
  lemma {:induction false} AllInvited(w: World)
    requires !w.pub.stopped && !Ready(w.pub)
    ensures Steps(w, Invite()) == w.(pub := w.pub.(active := true, timerOn := true, writeable := false),
                                     peers := Publish(w.peers, [Control(CONNECT)]))
  {
    var w1, w2 := Act(w, PubStart), Act(Act(w, PubStart), PubPoll(1));
    assert SentBy(w1.pub, 1) == [] && DataOf([]) == [];
    PublishNothing(w.peers);
    assert w2.sent == w.sent && w2.peers == w.peers && w2.pub == w1.pub.(writeable := true);
    ThreeSteps(w, PubStart, PubPoll(1), Timer);
  }

  lemma {:induction false} PublishNothing(peers: seq<Peer>)
    ensures Publish(peers, []) == peers
  {
    forall i | 0 <= i < |peers| ensures Publish(peers, [])[i] == peers[i] {
      assert peers[i].link.channel + [] == peers[i].link.channel;
    }
  }

  lemma {:induction false} IsCounted(w: World, i: nat)
    requires i < |w.peers| == |w.pub.syncOpen| && w.pub.active && w.pub.syncOpen[i]
    requires HearUpTo(w.peers[i], 1).link.pending
    ensures var q := HearUpTo(w.peers[i], 1);
            Steps(w, [SubPoll(i, 1, false), PubSync(i, false)]) ==
            w.(pub := w.pub.(expected := w.pub.expected - 1, syncOpen := w.pub.syncOpen[i := false]),
               peers := w.peers[i := q.(link := q.link.(pending := false, counted := true))])
  {
    var q := HearUpTo(w.peers[i], 1);
    var p := if w.peers[i].sub.open then q else w.peers[i];
    assert p == q;
    assert Act(w, SubPoll(i, 1, false)).peers == w.peers[i := q];
    TwoSteps(w, SubPoll(i, 1, false), PubSync(i, false));
    assert w.peers[i := q][i := q.(link := q.link.(pending := false, counted := true))]
        == w.peers[i := q.(link := q.link.(pending := false, counted := true))];
  }

  /** What a round leaves: subscriber `i` is counted, and the others are as countable as before. */
  lemma {:induction false} RoundCounts(w: World, i: nat)
    requires Inv(w) && !w.pub.stopped && AllCountable(w) && i < |w.peers| && !w.peers[i].link.counted
    ensures var v := Steps(w, Round(i));
            && Inv(v) && !v.pub.stopped && AllCountable(v) && v.pub.buffers == w.pub.buffers && v.consumed == w.consumed
            && Uncounted(v.peers) == Uncounted(w.peers) - 1
  {
    var p := w.peers[i];
    assert Good(p, w.sent, false) && Countable(p, w.pub.syncOpen[i]);
    AskedMeans(p, w.sent);
    var w1 := w.(peers := w.peers[i := Brought(p)]);
    ComesUp(w, i);
    NotAllCounted(w.peers, i);
    AllInvited(w1);
    var w2 := Steps(w1, Invite());
    IsCounted(w2, i);
    var v := Steps(w2, [SubPoll(i, 1, false), PubSync(i, false)]);
    StepsConcat(w1, Invite(), [SubPoll(i, 1, false), PubSync(i, false)]);
    StepsConcat(w, [Join(i), SubStart(i, 0), SubSync(i, true)], Invite() + [SubPoll(i, 1, false), PubSync(i, false)]);
    InvSteps(w, Round(i));
    forall j | 0 <= j < |v.peers| ensures Countable(v.peers[j], v.pub.syncOpen[j]) {
      if j != i {
        assert Countable(w.peers[j], w.pub.syncOpen[j]) && v.peers[j] == Receive(w.peers[j], [Control(CONNECT)]);
      }
    }
  }

  lemma {:induction false} NotAllCounted(peers: seq<Peer>, i: nat)
    requires i < |peers| && !peers[i].link.counted
    ensures Uncounted(peers) > 0
  {
    if i > 0 { NotAllCounted(peers[1..], i - 1); }
  }

  // ----- everything is sent -----

  lemma {:induction false} SomeUncounted(peers: seq<Peer>) returns (i: nat)
    requires Uncounted(peers) > 0
    ensures i < |peers| && !peers[i].link.counted
  {
    if !peers[0].link.counted {
      i := 0;
    } else {
      i := SomeUncounted(peers[1..]);
      i := i + 1;
    }
  }

  lemma {:induction false} SendsAll(w: World)
    requires Inv(w) && !w.pub.stopped && Uncounted(w.peers) == 0
    ensures Steps(w, [PubStart, PubPoll(|w.pub.buffers|)]).sent == w.consumed
  {
    TwoSteps(w, PubStart, PubPoll(|w.pub.buffers|));
  }

  lemma {:induction false} Completes(w: World) returns (more: seq<Action>)
    requires Inv(w) && !w.pub.stopped && AllCountable(w)
    ensures Steps(w, more).sent == w.consumed
    decreases Uncounted(w.peers)
  {
    if Uncounted(w.peers) == 0 {
      more := [PubStart, PubPoll(|w.pub.buffers|)];
      SendsAll(w);
    } else {
      var i := SomeUncounted(w.peers);
      RoundCounts(w, i);
      var rest := Completes(Steps(w, Round(i)));
      more := Round(i) + rest;
      StepsConcat(w, Round(i), rest);
    }
  }

  // ----- and when not -----

  lemma {:induction false} StoppedSendsNothing(w: World, more: seq<Action>)
    requires Inv(w) && w.pub.stopped
    ensures Steps(w, more).pub.stopped && Steps(w, more).sent == w.sent
  {
    if more != [] {
      StoppedSendsNothing(w, more[..|more| - 1]);
      InvSteps(w, more[..|more| - 1]);
    }
  }

  lemma {:induction false} HearsStaysLost(p: Peer, open: bool)
    requires Confirmed(p) && !Countable(p, open) && p.sub.open && p.link.channel != []
    ensures !Countable(HearFirst(p), open)
  {
  }

  lemma {:induction false} PollStaysLost(p: Peer, k: nat, open: bool, sent: seq<string>, ended: bool)
    requires Good(p, sent, ended) && !Countable(p, open)
    ensures !Countable(HearUpTo(p, k), open)
    decreases k
  {
    if !(k == 0 || p.link.channel == [] || !p.sub.open) {
      GoodHears(p, sent, ended);
      HearsStaysLost(p, open);
      PollStaysLost(HearFirst(p), k - 1, open, sent, ended);
    }
  }

  /** The subscriber can not be counted any more. */
  predicate Lost(w: World, i: nat) {
    i < |w.peers| == |w.pub.syncOpen| && !Countable(w.peers[i], w.pub.syncOpen[i])
  }

  lemma {:induction false} OwnStaysLost(p: Peer, open: bool, sent: seq<string>, ended: bool, k: nat, disconnected: bool,
                                        pollout: bool)
    requires Good(p, sent, ended) && !Countable(p, open)
    ensures !Countable(p.(link := p.link.(joined := true)), open)
    ensures !p.sub.started ==> !Countable(Started(p, k), open)
    ensures !Countable(Polled(p, k, disconnected), open) && !Countable(Synced(p, pollout), open)
  {
    PollStaysLost(p, k, open, sent, ended);
  }

  predicate OfPublisher(a: Action) {
    a.Consume? || a.PubStart? || a.Timer? || a.PubPoll? || a.PubSync? || a.PubStop?
  }

  lemma {:induction false} PublisherKeepsLost(w: World, i: nat, a: Action)
    requires Inv(w) && Lost(w, i) && OfPublisher(a)
    ensures Lost(Act(w, a), i)
  {
  }

  lemma {:induction false} SubscriberKeepsLost(w: World, i: nat, a: Action)
    requires Inv(w) && Lost(w, i) && !OfPublisher(a)
    ensures Lost(Act(w, a), i)
  {
    var p, open := w.peers[i], w.pub.syncOpen[i];
    assert Good(p, w.sent, w.pub.stopped);
    match a
    case Join(_) => OwnStaysLost(p, open, w.sent, w.pub.stopped, 0, false, false);
    case SubStart(_, k) => OwnStaysLost(p, open, w.sent, w.pub.stopped, k, false, false);
    case SubPoll(_, k, disconnected) => OwnStaysLost(p, open, w.sent, w.pub.stopped, k, disconnected, false);
    case SubSync(_, pollout) => OwnStaysLost(p, open, w.sent, w.pub.stopped, 0, false, pollout);
  }

  lemma {:induction false} LostForEver(w: World, i: nat, more: seq<Action>)
    requires Inv(w) && Lost(w, i)
    ensures Lost(Steps(w, more), i) && Steps(w, more).sent == []
  {
    if more != [] {
      var before := more[..|more| - 1];
      LostForEver(w, i, before);
      InvSteps(w, before);
      var last := more[|more| - 1];
      if OfPublisher(last) {
        PublisherKeepsLost(Steps(w, before), i, last);
      } else {
        SubscriberKeepsLost(Steps(w, before), i, last);
      }
    }
    InvSteps(w, more);
    assert Good(Steps(w, more).peers[i], Steps(w, more).sent, Steps(w, more).pub.stopped);
  }

  /** In a reachable state, all that was consumed can still be sent exactly if nothing is buffered, or the publisher was
      not stopped and every subscriber was counted or can still be. */
  lemma {:induction false} CanStillSendAll(n: nat, actions: seq<Action>)
    ensures var w := Reached(n, actions);
            (exists more :: w.consumed <= Steps(w, more).sent) <==>
            w.pub.buffers == [] || (!w.pub.stopped && AllCountable(w))
  {
    var w := Reached(n, actions);
    InvReached(n, actions);
    if w.pub.buffers == [] {
      assert Steps(w, []).sent == w.consumed;
    } else if w.pub.stopped {
      forall more ensures !(w.consumed <= Steps(w, more).sent) { StoppedSendsNothing(w, more); }
    } else if AllCountable(w) {
      var more := Completes(w);
      assert w.consumed <= Steps(w, more).sent;
    } else {
      var i :| 0 <= i < |w.peers| && !Countable(w.peers[i], w.pub.syncOpen[i]);
      forall more ensures !(w.consumed <= Steps(w, more).sent) { LostForEver(w, i, more); }
    }
  }
}
