/** Safety of the handshake in every reachable state. */
module HandshakeSafety {
  import opened Sequences
  import opened HandshakeSpec

  function Texts(ms: seq<Message>): seq<string> { seq(|ms|, i requires 0 <= i < |ms| => ms[i].text) }

  /** What a ready subscriber makes of some texts: it drops "connect" and stops at "end". */
  function Heard(texts: seq<string>): seq<string> {
    if texts == [] || texts[0] == END then []
    else (if texts[0] == CONNECT then [] else [texts[0]]) + Heard(texts[1..])
  }

  predicate NoData(ms: seq<Message>) {
    forall i | 0 <= i < |ms| :: ms[i].Control? && (ms[i].text == CONNECT || ms[i].text == END)
  }

  lemma {:induction false} HeardConcat(a: seq<string>, b: seq<string>)
    ensures Heard(a + b) == if END in a then Heard(a) else Heard(a) + Heard(b)
  {
    if a == [] {
      assert a + b == b;
    } else {
      assert (a + b)[1..] == a[1..] + b;
      HeardConcat(a[1..], b);
    }
  }

  lemma {:induction false} TextsConcat(a: seq<Message>, b: seq<Message>)
    ensures Texts(a + b) == Texts(a) + Texts(b)
  {
  }

  lemma {:induction false} TextsOfData(payloads: seq<string>)
    ensures Texts(DataOf(payloads)) == payloads
  {
  }

  lemma {:induction false} NothingHeard(ms: seq<Message>)
    requires NoData(ms)
    ensures Heard(Texts(ms)) == []
  {
    if ms != [] {
      assert ms[0].text == CONNECT || ms[0].text == END;
      assert Texts(ms)[1..] == Texts(ms[1..]);
      NothingHeard(ms[1..]);
    }
  }

  /** Nothing is changed on the way exactly if no payload reads "connect" or "end". */
  lemma {:induction false} HeardAsIs(texts: seq<string>)
    ensures Heard(texts) == texts <==> CONNECT !in texts && END !in texts
    ensures |Heard(texts)| <= |texts|
  {
    if texts != [] {
      HeardAsIs(texts[1..]);
      assert texts == [texts[0]] + texts[1..];
      if texts[0] != CONNECT && texts[0] != END {
        assert Heard(texts)[1..] == Heard(texts[1..]);
      }
    }
  }

  // ----- what holds of one subscriber -----

  /** Confirmation: given once, when both the invitation and the sync socket are there, and counted at most once. */
  predicate Confirmed(p: Peer) {
    && p.link.confirms == (if p.sub.ready && p.sub.readyToConfirm then 1 else 0)
    && (p.sub.readyToConfirm ==> !p.sub.syncOpen)
    && (p.link.pending ==> p.link.confirms == 1 && !p.link.counted)
    && (p.link.counted ==> p.link.confirms == 1)
  }

  /** A subscriber that is not ready has seen no data, and none is under way to it. */
  predicate Unready(p: Peer, ended: bool) {
    && NoData(p.link.channel) && p.sub.handled == []
    && (!ended ==> END !in Texts(p.link.channel))
    && (!p.sub.started ==> !p.sub.open && !p.sub.syncOpen && !p.sub.readyToConfirm && !p.sub.sawEnd)
  }

  /** A ready subscriber has handled, or is about to receive, all that was sent. */
  predicate Listening(p: Peer, sent: seq<string>, ended: bool) {
    && p.sub.started && p.link.joined
    && p.sub.handled <= Heard(sent)
    && (p.sub.open ==> p.sub.handled + Heard(Texts(p.link.channel)) == Heard(sent))
    && (p.sub.open && !ended ==> (END in Texts(p.link.channel) <==> END in sent))
  }

  predicate Good(p: Peer, sent: seq<string>, ended: bool) {
    && Confirmed(p)
    && (!p.link.counted ==> sent == [])
    && (!p.link.joined ==> p.link.channel == [])
    && (if p.sub.ready then Listening(p, sent, ended) else Unready(p, ended))
    && (p.sub.sawEnd ==> p.sub.handled == Heard(sent) && (END in sent || ended))
    && NoData(p.link.discarded)
  }

  lemma {:induction false} GoodInvited(p: Peer, sent: seq<string>)
    requires Good(p, sent, false)
    ensures Good(Receive(p, [Control(CONNECT)]), sent, false)
  {
    var ms := [Control(CONNECT)];
    TextsConcat(p.link.channel, ms);
    HeardConcat(Texts(p.link.channel), Texts(ms));
    assert Texts(ms) == [CONNECT] && Heard([CONNECT]) == [] + Heard([CONNECT][1..]);
  }

  lemma {:induction false} GoodSent(p: Peer, sent: seq<string>, payloads: seq<string>)
    requires Good(p, sent, false) && p.link.counted
    ensures Good(Receive(p, DataOf(payloads)), sent + payloads, false)
  {
    TextsConcat(p.link.channel, DataOf(payloads));
    TextsOfData(payloads);
    HeardConcat(Texts(p.link.channel), payloads);
    HeardConcat(sent, payloads);
    AppendThree(p.sub.handled, Heard(Texts(p.link.channel)), Heard(payloads));
  }

  lemma {:induction false} GoodSentNothing(p: Peer)
    ensures Receive(p, DataOf([])) == p
  {
    assert DataOf([]) == [];
    assert p.link.channel + [] == p.link.channel;
  }

  lemma {:induction false} GoodEnded(p: Peer, sent: seq<string>)
    requires Good(p, sent, false)
    ensures Good(Receive(p, [Control(END)]), sent, true)
  {
    var ms := [Control(END)];
    TextsConcat(p.link.channel, ms);
    HeardConcat(Texts(p.link.channel), Texts(ms));
    assert Texts(ms) == [END];
  }

  lemma {:induction false} ReceiveTwice(p: Peer, a: seq<Message>, b: seq<Message>)
    ensures Receive(p, a + b) == Receive(Receive(p, a), b)
  {
    AppendThree(p.link.channel, a, b);
  }

  lemma {:induction false} GoodHears(p: Peer, sent: seq<string>, ended: bool)
    requires Good(p, sent, ended) && p.sub.open && p.link.channel != []
    ensures Good(HearFirst(p), sent, ended)
  {
    var m, rest := p.link.channel[0], p.link.channel[1..];
    assert Texts(p.link.channel)[0] == m.text && Texts(p.link.channel)[1..] == Texts(rest);
    if !p.sub.ready { NothingHeard(rest); }
    if m.text != CONNECT && m.text != END { AppendThree(p.sub.handled, [m.text], Heard(Texts(rest))); }
  }

  lemma {:induction false} GoodHearsAll(p: Peer, k: nat, sent: seq<string>, ended: bool)
    requires Good(p, sent, ended)
    ensures Good(HearUpTo(p, k), sent, ended)
    decreases k
  {
    if !(k == 0 || p.link.channel == [] || !p.sub.open) {
      GoodHears(p, sent, ended);
      GoodHearsAll(HearFirst(p), k - 1, sent, ended);
    }
  }

  lemma {:induction false} GoodPolled(p: Peer, k: nat, disconnected: bool, sent: seq<string>, ended: bool)
    requires Good(p, sent, ended)
    ensures Good(Polled(p, k, disconnected), sent, ended)
  {
    GoodHearsAll(p, k, sent, ended);
  }

  lemma {:induction false} GoodStarted(p: Peer, k: nat, sent: seq<string>, ended: bool)
    requires Good(p, sent, ended) && !p.sub.started
    ensures Good(Started(p, k), sent, ended)
  {
    var n := if k <= |p.link.channel| then k else |p.link.channel|;
    TextsConcat(p.link.channel[..n], p.link.channel[n..]);
    assert p.link.channel[..n] + p.link.channel[n..] == p.link.channel;
  }

  lemma {:induction false} GoodSynced(p: Peer, pollout: bool, sent: seq<string>, ended: bool)
    requires Good(p, sent, ended)
    ensures Good(Synced(p, pollout), sent, ended)
  {
  }

  // ----- what holds of the system -----

  function Uncounted(peers: seq<Peer>): nat {
    if peers == [] then 0 else (if peers[0].link.counted then 0 else 1) + Uncounted(peers[1..])
  }

  ghost predicate AllGood(peers: seq<Peer>, sent: seq<string>, ended: bool) {
    forall i | 0 <= i < |peers| :: Good(peers[i], sent, ended)
  }

  ghost predicate Inv(w: World) {
    && AllGood(w.peers, w.sent, w.pub.stopped)
    && w.pub.expected == Uncounted(w.peers)
    && |w.pub.syncOpen| == |w.peers|
    && w.sent + w.pub.buffers == w.consumed
    && (w.pub.stopped ==> !w.pub.active && !w.pub.timerOn)
  }

  lemma {:induction false} AllCounted(peers: seq<Peer>, i: nat)
    requires i < |peers| && Uncounted(peers) == 0
    ensures peers[i].link.counted
  {
    if i > 0 { AllCounted(peers[1..], i - 1); }
  }

  lemma {:induction false} SameCounted(a: seq<Peer>, b: seq<Peer>)
    requires |a| == |b| && forall i | 0 <= i < |a| :: a[i].link.counted == b[i].link.counted
    ensures Uncounted(a) == Uncounted(b)
  {
    if a != [] { SameCounted(a[1..], b[1..]); }
  }

  lemma {:induction false} CountOne(peers: seq<Peer>, i: nat, p: Peer)
    requires i < |peers| && !peers[i].link.counted && p.link.counted
    ensures Uncounted(peers[i := p]) == Uncounted(peers) - 1
  {
    if i > 0 {
      CountOne(peers[1..], i - 1, p);
      assert peers[i := p][1..] == peers[1..][i - 1 := p];
    } else {
      assert peers[i := p][1..] == peers[1..];
    }
  }

  lemma {:induction false} InvOnePeer(w: World, i: nat, p: Peer)
    requires Inv(w) && i < |w.peers| && Good(p, w.sent, w.pub.stopped) && p.link.counted == w.peers[i].link.counted
    ensures Inv(w.(peers := w.peers[i := p]))
  {
    SameCounted(w.peers, w.peers[i := p]);
  }

  lemma {:induction false} InvTimer(w: World)
    requires Inv(w)
    ensures Inv(Act(w, Timer))
  {
    if Invites(w.pub) {
      var peers := Publish(w.peers, [Control(CONNECT)]);
      SameCounted(w.peers, peers);
      forall i | 0 <= i < |peers| ensures Good(peers[i], w.sent, false) { GoodInvited(w.peers[i], w.sent); }
    }
  }

  /** Publishing buffered payloads keeps every subscriber good: if there are any to send, all have been counted. */
  lemma {:induction false} AllSent(w: World, polls: nat)
    requires Inv(w) && !w.pub.stopped
    ensures AllGood(Publish(w.peers, DataOf(SentBy(w.pub, polls))), w.sent + SentBy(w.pub, polls), false)
  {
    var payloads := SentBy(w.pub, polls);
    var peers := Publish(w.peers, DataOf(payloads));
    forall i | 0 <= i < |peers| ensures Good(peers[i], w.sent + payloads, false) {
      if payloads == [] {
        GoodSentNothing(w.peers[i]);
        assert w.sent + payloads == w.sent;
      } else {
        AllCounted(w.peers, i);
        GoodSent(w.peers[i], w.sent, payloads);
      }
    }
  }

  lemma {:induction false} SentAndLeft(w: World, polls: nat)
    requires w.sent + w.pub.buffers == w.consumed
    ensures w.sent + SentBy(w.pub, polls) + w.pub.buffers[Sendable(w.pub, polls)..] == w.consumed
  {
    var k := Sendable(w.pub, polls);
    assert w.pub.buffers == w.pub.buffers[..k] + w.pub.buffers[k..];
  }

  lemma {:induction false} InvPubPoll(w: World, polls: nat)
    requires Inv(w)
    ensures Inv(Act(w, PubPoll(polls)))
  {
    if w.pub.active {
      AllSent(w, polls);
      SentAndLeft(w, polls);
      SameCounted(w.peers, Publish(w.peers, DataOf(SentBy(w.pub, polls))));
    }
  }

  lemma {:induction false} InvPubStop(w: World, polls: nat)
    requires Inv(w)
    ensures Inv(Act(w, PubStop(polls)))
  {
    if !w.pub.stopped {
      var data, sent := DataOf(SentBy(w.pub, polls)), w.sent + SentBy(w.pub, polls);
      var peers := Publish(w.peers, data + [Control(END)]);
      AllSent(w, polls);
      SentAndLeft(w, polls);
      SameCounted(w.peers, peers);
      forall i | 0 <= i < |peers| ensures Good(peers[i], sent, true) {
        assert Publish(w.peers, data)[i] == Receive(w.peers[i], data);
        GoodEnded(Receive(w.peers[i], data), sent);
        ReceiveTwice(w.peers[i], data, [Control(END)]);
      }
    }
  }

  lemma {:induction false} InvPubSync(w: World, i: nat, disconnected: bool)
    requires Inv(w)
    ensures Inv(Act(w, PubSync(i, disconnected)))
  {
    if w.pub.active && i < |w.peers| && w.pub.syncOpen[i] && w.peers[i].link.pending {
      CountOne(w.peers, i, w.peers[i].(link := w.peers[i].link.(pending := false, counted := true)));
    }
  }

  lemma {:induction false} InvConsume(w: World, payload: string)
    requires Inv(w)
    ensures Inv(Act(w, Consume(payload)))
  {
    AppendThree(w.sent, w.pub.buffers, [payload]);
  }

  lemma {:induction false} InvJoin(w: World, i: nat)
    requires Inv(w)
    ensures Inv(Act(w, Join(i)))
  {
    if i < |w.peers| { InvOnePeer(w, i, w.peers[i].(link := w.peers[i].link.(joined := true))); }
  }

  lemma {:induction false} InvSubStart(w: World, i: nat, k: nat)
    requires Inv(w)
    ensures Inv(Act(w, SubStart(i, k)))
  {
    if i < |w.peers| && !w.peers[i].sub.started {
      GoodStarted(w.peers[i], k, w.sent, w.pub.stopped);
      InvOnePeer(w, i, Started(w.peers[i], k));
    }
  }

  lemma {:induction false} InvSubPoll(w: World, i: nat, k: nat, disconnected: bool)
    requires Inv(w)
    ensures Inv(Act(w, SubPoll(i, k, disconnected)))
  {
    if i < |w.peers| {
      GoodPolled(w.peers[i], k, disconnected, w.sent, w.pub.stopped);
      PolledCounted(w.peers[i], k);
      InvOnePeer(w, i, Polled(w.peers[i], k, disconnected));
    }
  }

  lemma {:induction false} InvSubSync(w: World, i: nat, pollout: bool)
    requires Inv(w)
    ensures Inv(Act(w, SubSync(i, pollout)))
  {
    if i < |w.peers| {
      GoodSynced(w.peers[i], pollout, w.sent, w.pub.stopped);
      InvOnePeer(w, i, Synced(w.peers[i], pollout));
    }
  }

  lemma {:induction false} InvPubStart(w: World)
    requires Inv(w)
    ensures Inv(Act(w, PubStart))
  {
  }

  /** Every action keeps the invariant. */
  lemma {:induction false} InvAct(w: World, a: Action)
    requires Inv(w)
    ensures Inv(Act(w, a))
  {
    match a
    case Join(i) => InvJoin(w, i);
    case Consume(payload) => InvConsume(w, payload);
    case PubStart => InvPubStart(w);
    case Timer => InvTimer(w);
    case PubPoll(polls) => InvPubPoll(w, polls);
    case PubSync(i, disconnected) => InvPubSync(w, i, disconnected);
    case PubStop(polls) => InvPubStop(w, polls);
    case SubStart(i, k) => InvSubStart(w, i, k);
    case SubPoll(i, k, disconnected) => InvSubPoll(w, i, k, disconnected);
    case SubSync(i, pollout) => InvSubSync(w, i, pollout);
  }

  lemma {:induction false} PolledCounted(p: Peer, k: nat)
    ensures HearUpTo(p, k).link.counted == p.link.counted
    decreases k
  {
    if !(k == 0 || p.link.channel == [] || !p.sub.open) { PolledCounted(HearFirst(p), k - 1); }
  }

  lemma {:induction false} InvInit(n: nat)
    ensures Inv(Init(n))
  {
    AllUncounted(Init(n).peers);
  }

  lemma {:induction false} AllUncounted(peers: seq<Peer>)
    requires forall i | 0 <= i < |peers| :: !peers[i].link.counted
    ensures Uncounted(peers) == |peers|
  {
    if peers != [] { AllUncounted(peers[1..]); }
  }

  lemma {:induction false} InvReached(n: nat, actions: seq<Action>)
    ensures Inv(Reached(n, actions)) && |Reached(n, actions).peers| == n
  {
    if actions == [] {
      InvInit(n);
    } else {
      var before := actions[..|actions| - 1];
      InvReached(n, before);
      InvAct(Reached(n, before), actions[|actions| - 1]);
    }
  }

  // ----- the guarantees -----

  /** Each subscriber confirms at most once, and no data is sent before all have confirmed and are listening. */
  lemma {:induction false} NoDataBeforeAllConfirmed(n: nat, actions: seq<Action>, i: nat)
    requires i < n
    ensures var w := Reached(n, actions);
            && w.peers[i].link.confirms <= 1
            && (w.sent != [] ==> w.peers[i].link.confirms == 1 && w.peers[i].sub.ready)
  {
    InvReached(n, actions);
    var w := Reached(n, actions);
    assert Good(w.peers[i], w.sent, w.pub.stopped);
  }

  /** What a subscriber throws away, at the start or as its first message, is never data. */
  lemma {:induction false} NoDataDiscarded(n: nat, actions: seq<Action>, i: nat)
    requires i < n
    ensures forall m | m in Reached(n, actions).peers[i].link.discarded :: m.Control?
  {
    InvReached(n, actions);
    var w := Reached(n, actions);
    assert Good(w.peers[i], w.sent, w.pub.stopped);
  }

  lemma {:induction false} HeardPrefix(a: seq<string>, b: seq<string>, c: seq<string>)
    requires a + b == c
    ensures Heard(a) <= Heard(c)
  {
    HeardConcat(a, b);
  }

  /** What a subscriber has handled is a prefix of what it should make of everything consumed; once it has read the end
      message it has handled all that was sent. */
  lemma {:induction false} HandledInOrder(n: nat, actions: seq<Action>, i: nat)
    requires i < n
    ensures var w := Reached(n, actions);
            && w.peers[i].sub.handled <= Heard(w.consumed)
            && (w.peers[i].sub.sawEnd ==> w.peers[i].sub.handled == Heard(w.sent))
  {
    InvReached(n, actions);
    var w := Reached(n, actions);
    assert Good(w.peers[i], w.sent, w.pub.stopped);
    HeardPrefix(w.sent, w.pub.buffers, w.consumed);
  }

  /** A subscriber that has read the end message has handled what was sent, as it was sent, exactly if no payload among
      it reads "connect" or "end". */
  lemma {:induction false} DeliveredAsIs(n: nat, actions: seq<Action>, i: nat)
    requires i < n && Reached(n, actions).peers[i].sub.sawEnd
    ensures var w := Reached(n, actions);
            w.peers[i].sub.handled == w.sent <==> CONNECT !in w.sent && END !in w.sent
  {
    HandledInOrder(n, actions, i);
    HeardAsIs(Reached(n, actions).sent);
  }

  /** With payloads other than "connect" and "end", each subscriber has handled a prefix of what was consumed, in order
      and without duplicates, and after the end message everything that was sent. */
  lemma {:induction false} HandledIsPrefixOfConsumed(n: nat, actions: seq<Action>, i: nat)
    requires i < n
    requires CONNECT !in Reached(n, actions).consumed && END !in Reached(n, actions).consumed
    ensures var w := Reached(n, actions);
            && w.peers[i].sub.handled <= w.consumed
            && (w.peers[i].sub.sawEnd ==> w.peers[i].sub.handled == w.sent)
  {
    HandledInOrder(n, actions, i);
    InvReached(n, actions);
    var w := Reached(n, actions);
    HeardAsIs(w.consumed);
    assert forall x | x in w.sent :: x in w.consumed;
    HeardAsIs(w.sent);
  }

  /** Stopping sends everything exactly if nothing is buffered, or all have confirmed and the socket takes it all. */
  lemma {:induction false} StopSendsEverything(n: nat, actions: seq<Action>, polls: nat)
    requires !Reached(n, actions).pub.stopped
    ensures var w := Reached(n, actions);
            var stopped := Reached(n, actions + [PubStop(polls)]);
            stopped.sent == stopped.consumed <==>
              w.pub.buffers == [] || ((forall i | 0 <= i < n :: w.peers[i].link.counted) && polls >= |w.pub.buffers|)
  {
    var w := Reached(n, actions);
    InvReached(n, actions);
    assert (actions + [PubStop(polls)])[..|actions|] == actions;
    var v := Act(w, PubStop(polls));
    InvAct(w, PubStop(polls));
    assert v.sent + v.pub.buffers == v.consumed;
    if Ready(w.pub) {
      forall i | 0 <= i < n ensures w.peers[i].link.counted { AllCounted(w.peers, i); }
    } else if forall i | 0 <= i < n :: w.peers[i].link.counted {
      NoneLeft(w.peers);
    }
  }

  lemma {:induction false} NoneLeft(peers: seq<Peer>)
    requires forall i | 0 <= i < |peers| :: peers[i].link.counted
    ensures Uncounted(peers) == 0
  {
    if peers != [] { NoneLeft(peers[1..]); }
  }
}
