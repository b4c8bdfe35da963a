/** A run of the handshake, for any number of subscribers and any payloads, that delivers everything: all subscribers
    come up, confirm and are counted; then the payloads are sent, and the end message. */
module HandshakeDelivery {
  import opened HandshakeSpec
  import opened HandshakeSafety

  /** Actions one after another. */
  function Steps(w: World, actions: seq<Action>): World {
    if actions == [] then w else Act(Steps(w, actions[..|actions| - 1]), actions[|actions| - 1])
  }

  lemma {:induction false} ReachedIsSteps(n: nat, actions: seq<Action>)
    ensures Reached(n, actions) == Steps(Init(n), actions)
  {
    if actions != [] { ReachedIsSteps(n, actions[..|actions| - 1]); }
  }

  lemma {:induction false} StepsConcat(w: World, a: seq<Action>, b: seq<Action>)
    ensures Steps(w, a + b) == Steps(Steps(w, a), b)
  {
    if b == [] {
      assert a + b == a;
    } else {
      var n := |b| - 1;
      assert (a + b)[..|a| + n] == a + b[..n];
      StepsConcat(w, a, b[..n]);
    }
  }

  lemma {:induction false} StepsSnoc(w: World, actions: seq<Action>, a: Action)
    ensures Steps(w, actions + [a]) == Act(Steps(w, actions), a)
  {
    assert (actions + [a])[..|actions|] == actions;
  }

  /** The first `j` of `n` peers are `q`, the others `p`. */
  function Mixed(n: nat, j: nat, q: Peer, p: Peer): seq<Peer> { seq(n, i => if i < j then q else p) }

  function All(n: nat, p: Peer): seq<Peer> { seq(n, _ => p) }

  /** One action for each of the first `j` peers. */
  function Each(j: nat, action: nat -> Action): seq<Action> {
    if j == 0 then [] else Each(j - 1, action) + [action(j - 1)]
  }

  /** The action for a peer turns `p` into `q`, and changes nothing else. */
  ghost predicate Turns(action: nat -> Action, p: Peer, q: Peer) {
    forall w: World, i: nat | i < |w.peers| && w.peers[i] == p :: Puts(w, action(i), i, q)
  }

  ghost predicate Puts(w: World, a: Action, i: nat, q: Peer)
    requires i < |w.peers|
  {
    Act(w, a) == w.(peers := w.peers[i := q])
  }

  lemma {:induction false} OneMore(n: nat, j: nat, q: Peer, p: Peer)
    requires j < n
    ensures Mixed(n, j, q, p)[j] == p && Mixed(n, j, q, p)[j := q] == Mixed(n, j + 1, q, p)
  {
  }

  /** The actions take `w` to `v`. */
  ghost predicate Leads(w: World, actions: seq<Action>, v: World) { Steps(w, actions) == v }

  lemma {:induction false} StepOn(w: World, actions: seq<Action>, a: Action, v: World, u: World)
    requires Leads(w, actions, v) && Act(v, a) == u
    ensures Leads(w, actions + [a], u)
  {
    StepsSnoc(w, actions, a);
  }

  lemma {:induction false} PutOn(w: World, actions: seq<Action>, a: Action, v: World, i: nat, q: Peer)
    requires i < |v.peers| && Leads(w, actions, v) && Puts(v, a, i, q)
    ensures Leads(w, actions + [a], v.(peers := v.peers[i := q]))
  {
    StepOn(w, actions, a, v, v.(peers := v.peers[i := q]));
  }

  lemma {:induction false} SomeTurn(w: World, action: nat -> Action, n: nat, j: nat, p: Peer, q: Peer)
    requires Turns(action, p, q) && w.peers == All(n, p) && j <= n
    ensures Leads(w, Each(j, action), w.(peers := Mixed(n, j, q, p)))
  {
    if j == 0 {
      assert Mixed(n, 0, q, p) == w.peers;
    } else {
      var v := w.(peers := Mixed(n, j - 1, q, p));
      SomeTurn(w, action, n, j - 1, p, q);
      OneMore(n, j - 1, q, p);
      PutOn(w, Each(j - 1, action), action(j - 1), v, j - 1, q);
    }
  }

  lemma {:induction false} AllTurn(w: World, action: nat -> Action, n: nat, p: Peer, q: Peer)
    requires Turns(action, p, q) && w.peers == All(n, p)
    ensures Leads(w, Each(n, action), w.(peers := All(n, q)))
  {
    SomeTurn(w, action, n, n, p, q);
    assert Mixed(n, n, q, p) == All(n, q);
  }

  /** The actions of each subscriber, and of the publisher for each. */
  function Joins(): nat -> Action { (i: nat) => Join(i) }

  function Starts(): nat -> Action { (i: nat) => SubStart(i, 0) }

  function Syncs(): nat -> Action { (i: nat) => SubSync(i, true) }

  function Polls(k: nat): nat -> Action { (i: nat) => SubPoll(i, k, false) }

  function Counts(): nat -> Action { (i: nat) => PubSync(i, false) }

  lemma {:induction false} JoinsTurn(p: Peer)
    ensures Turns(Joins(), p, p.(link := p.link.(joined := true)))
  {
  }

  lemma {:induction false} StartsTurn(p: Peer)
    requires !p.sub.started
    ensures Turns(Starts(), p, Started(p, 0))
  {
  }

  lemma {:induction false} SyncPuts(w: World, i: nat)
    requires i < |w.peers|
    ensures Puts(w, SubSync(i, true), i, Synced(w.peers[i], true))
  {
  }

  lemma {:induction false} SyncsTurn(p: Peer)
    ensures Turns(Syncs(), p, Synced(p, true))
  {
    forall w: World, i: nat | i < |w.peers| && w.peers[i] == p ensures Puts(w, Syncs()(i), i, Synced(p, true)) {
      SyncPuts(w, i);
    }
  }

  lemma {:induction false} PollPuts(w: World, i: nat, k: nat)
    requires i < |w.peers|
    ensures Puts(w, SubPoll(i, k, false), i, Polled(w.peers[i], k, false))
  {
  }

  lemma {:induction false} PollsTurn(k: nat, p: Peer)
    ensures Turns(Polls(k), p, Polled(p, k, false))
  {
    forall w: World, i: nat | i < |w.peers| && w.peers[i] == p ensures Puts(w, Polls(k)(i), i, Polled(p, k, false)) {
      PollPuts(w, i, k);
    }
  }

  lemma {:induction false} Then(w: World, a: seq<Action>, v: World, b: seq<Action>, u: World)
    requires Leads(w, a, v) && Leads(v, b, u)
    ensures Leads(w, a + b, u)
  {
    StepsConcat(w, a, b);
  }

  // ----- the subscribers come up -----

  const FRESH := Peer(SubState(false, false, false, false, false, false, []), Link(false, [], [], false, 0, false))

  /** Joined and listening, the sync socket ready: what is missing is the invitation. */
  const WAITING := Peer(SubState(true, true, false, false, true, false, []), Link(true, [], [], false, 0, false))

  const JOINED := FRESH.(link := FRESH.link.(joined := true))

  function Up(n: nat): seq<Action> { Each(n, Joins()) + (Each(n, Starts()) + Each(n, Syncs())) }

  lemma {:induction false} AllJoin(w: World, n: nat)
    requires w.peers == All(n, FRESH)
    ensures Leads(w, Each(n, Joins()), w.(peers := All(n, JOINED)))
  {
    JoinsTurn(FRESH);
    AllTurn(w, Joins(), n, FRESH, JOINED);
  }

  lemma {:induction false} AllStart(w: World, n: nat)
    requires w.peers == All(n, JOINED)
    ensures Leads(w, Each(n, Starts()), w.(peers := All(n, Started(JOINED, 0))))
  {
    StartsTurn(JOINED);
    AllTurn(w, Starts(), n, JOINED, Started(JOINED, 0));
  }

  lemma {:induction false} AllSync(w: World, n: nat)
    requires w.peers == All(n, Started(JOINED, 0))
    ensures Leads(w, Each(n, Syncs()), w.(peers := All(n, WAITING)))
  {
    var none: seq<Message> := [];
    assert none[0..] == none && none + none[..0] == none;
    assert Synced(Started(JOINED, 0), true) == WAITING;
    SyncsTurn(Started(JOINED, 0));
    AllTurn(w, Syncs(), n, Started(JOINED, 0), WAITING);
  }

  lemma {:induction false} ComeUp(w: World, n: nat)
    requires w.peers == All(n, FRESH)
    ensures Leads(w, Up(n), w.(peers := All(n, WAITING)))
  {
    var w1, w2, w3 := w.(peers := All(n, JOINED)), w.(peers := All(n, Started(JOINED, 0))),
        w.(peers := All(n, WAITING));
    AllJoin(w, n);
    AllStart(w1, n);
    AllSync(w2, n);
    Then(w1, Each(n, Starts()), w2, Each(n, Syncs()), w3);
    Then(w, Each(n, Joins()), w1, Each(n, Starts()) + Each(n, Syncs()), w3);
  }

  // ----- they are invited, confirm, and are counted -----

  /** Has heard the invitation; the confirmation is under way. */
  const CONFIRMING := Peer(SubState(true, true, false, true, true, false, []),
                           Link(true, [], [Control(CONNECT)], true, 1, false))

  const COUNTED := CONFIRMING.(link := CONFIRMING.link.(pending := false, counted := true))

  lemma {:induction false} PublishAll(n: nat, p: Peer, ms: seq<Message>)
    ensures Publish(All(n, p), ms) == All(n, Receive(p, ms))
  {
  }

  function Invite(): seq<Action> { [PubStart, PubPoll(1), Timer] }

  /** The publisher is up, and the subscribers are as given. */
  function Inviting(n: nat, p: Peer): World {
    Init(n).(pub := Init(n).pub.(active := true, timerOn := true), peers := All(n, p))
  }

  lemma {:induction false} Invited(w: World, n: nat)
    requires n > 0 && w == Init(n).(peers := All(n, WAITING))
    ensures Leads(w, Invite(), Inviting(n, Receive(WAITING, [Control(CONNECT)])))
  {
    var w1 := Act(w, PubStart);
    StepsSnoc(w, [], PubStart);
    StepsSnoc(w, [PubStart], PubPoll(1));
    StepsSnoc(w, [PubStart, PubPoll(1)], Timer);
    assert SentBy(w1.pub, 1) == [] && DataOf([]) == [];
    PublishAll(n, WAITING, []);
    assert Receive(WAITING, []) == WAITING;
    PublishAll(n, WAITING, [Control(CONNECT)]);
    assert [] + [PubStart] == [PubStart] && [PubStart] + [PubPoll(1)] == [PubStart, PubPoll(1)];
    assert [PubStart, PubPoll(1)] + [Timer] == Invite();
  }

  lemma {:induction false} Hears(w: World, n: nat)
    requires w.peers == All(n, Receive(WAITING, [Control(CONNECT)]))
    ensures Leads(w, Each(n, Polls(1)), w.(peers := All(n, CONFIRMING)))
  {
    var invited := Receive(WAITING, [Control(CONNECT)]);
    assert invited.link.channel == [Control(CONNECT)];
    assert HearUpTo(HearFirst(invited), 0) == HearFirst(invited) == CONFIRMING;
    PollsTurn(1, invited);
    AllTurn(w, Polls(1), n, invited, CONFIRMING);
  }

  /** The system once `j` of `n` confirmations were counted. */
  function Counted(w: World, n: nat, j: nat): World {
    w.(pub := w.pub.(expected := n - j, syncOpen := seq(n, i => i >= j)), peers := Mixed(n, j, COUNTED, CONFIRMING))
  }

  lemma {:induction false} OneCounted(w: World, n: nat, j: nat)
    requires j < n && w.pub.active
    ensures Act(Counted(w, n, j), PubSync(j, false)) == Counted(w, n, j + 1)
  {
    OneMore(n, j, COUNTED, CONFIRMING);
    assert Counted(w, n, j).pub.syncOpen[j := false] == Counted(w, n, j + 1).pub.syncOpen;
  }

  lemma {:induction false} CountOn(w: World, n: nat, j: nat, actions: seq<Action>)
    requires j < n && w.pub.active && Leads(w, actions, Counted(w, n, j))
    ensures Leads(w, actions + [PubSync(j, false)], Counted(w, n, j + 1))
  {
    OneCounted(w, n, j);
    StepOn(w, actions, PubSync(j, false), Counted(w, n, j), Counted(w, n, j + 1));
  }

  lemma {:induction false} SomeCounted(w: World, n: nat, j: nat)
    requires j <= n && w == Counted(w, n, 0) && w.pub.active
    ensures Leads(w, Each(j, Counts()), Counted(w, n, j))
  {
    if j > 0 {
      SomeCounted(w, n, j - 1);
      CountOn(w, n, j - 1, Each(j - 1, Counts()));
    }
  }

  /** From the start to the state in which all subscribers are counted. */
  function Handshake(n: nat): seq<Action> {
    if n == 0 then [] else Up(n) + (Invite() + (Each(n, Polls(1)) + Each(n, Counts())))
  }

  /** All subscribers are counted, and nothing has come in. */
  predicate Shaken(w: World, n: nat) {
    w.peers == All(n, COUNTED) && Ready(w.pub) && w.pub.buffers == [] && !w.pub.stopped && w.consumed == [] &&
        w.sent == []
  }

  lemma {:induction false} AllConfirm(n: nat)
    ensures Shaken(Steps(Inviting(n, CONFIRMING), Each(n, Counts())), n)
  {
    var w := Inviting(n, CONFIRMING);
    assert w.pub.syncOpen == seq(n, i => i >= 0) && w.peers == Mixed(n, 0, COUNTED, CONFIRMING);
    SomeCounted(w, n, n);
    assert Mixed(n, n, COUNTED, CONFIRMING) == All(n, COUNTED);
  }

  lemma {:induction false} AllAreCounted(n: nat)
    ensures Shaken(Steps(Init(n), Handshake(n)), n)
  {
    if n == 0 {
      assert Init(0).peers == All(0, COUNTED);
    } else {
      var w0, w1 := Init(n), Init(n).(peers := All(n, WAITING));
      var w2, w3 := Inviting(n, Receive(WAITING, [Control(CONNECT)])), Inviting(n, CONFIRMING);
      assert w0.peers == All(n, FRESH);
      ComeUp(w0, n);
      Invited(w1, n);
      Hears(w2, n);
      AllConfirm(n);
      var w4 := Steps(w3, Each(n, Counts()));
      Then(w2, Each(n, Polls(1)), w3, Each(n, Counts()), w4);
      Then(w1, Invite(), w2, Each(n, Polls(1)) + Each(n, Counts()), w4);
      Then(w0, Up(n), w1, Invite() + (Each(n, Polls(1)) + Each(n, Counts())), w4);
    }
  }

  // ----- the payloads -----

  function Consumes(ps: seq<string>): seq<Action> {
    if ps == [] then [] else Consumes(ps[..|ps| - 1]) + [Consume(ps[|ps| - 1])]
  }

  lemma {:induction false} AllConsumed(w: World, ps: seq<string>)
    requires w.pub.buffers == [] && w.consumed == []
    ensures Steps(w, Consumes(ps)) == w.(pub := w.pub.(buffers := ps), consumed := ps)
  {
    if ps != [] {
      var n := |ps| - 1;
      AllConsumed(w, ps[..n]);
      StepsSnoc(w, Consumes(ps[..n]), Consume(ps[n]));
      assert ps[..n] + [ps[n]] == ps;
    }
  }

  /** A subscriber that is listening reads on to the end message. */
  lemma {:induction false} ReadsToEnd(p: Peer, k: nat)
    requires p.sub.open && END in Texts(p.link.channel) && k >= |p.link.channel|
    ensures HearUpTo(p, k).sub.sawEnd
    decreases k
  {
    var channel := p.link.channel;
    if channel[0].text == END {
      SawEndStays(HearFirst(p), k - 1);
    } else {
      EndIsLater(channel);
      ReadsToEnd(HearFirst(p), k - 1);
    }
  }

  lemma {:induction false} EndIsLater(channel: seq<Message>)
    requires END in Texts(channel) && channel[0].text != END
    ensures END in Texts(channel[1..])
  {
    assert Texts(channel) == [channel[0].text] + Texts(channel[1..]);
  }

  lemma {:induction false} SawEndStays(p: Peer, k: nat)
    requires p.sub.sawEnd && !p.sub.open
    ensures HearUpTo(p, k).sub.sawEnd
  {
  }

  /** A subscriber that was sent the payloads and the end message. */
  function Full(ps: seq<string>): Peer { Receive(COUNTED, DataOf(ps) + [Control(END)]) }

  lemma {:induction false} FullReads(ps: seq<string>)
    ensures Polled(Full(ps), |ps| + 1, false).sub.sawEnd
  {
    var ms := DataOf(ps) + [Control(END)];
    assert Full(ps).link.channel == ms && Texts(ms)[|ps|] == END;
    ReadsToEnd(Full(ps), |ps| + 1);
  }

  lemma {:induction false} StopsWith(w: World, n: nat, ps: seq<string>)
    requires w.peers == All(n, COUNTED) && Ready(w.pub) && !w.pub.stopped && w.pub.buffers == ps == w.consumed &&
             w.sent == []
    ensures var v := Act(w, PubStop(|ps|)); v.peers == All(n, Full(ps)) && v.sent == ps == v.consumed
  {
    PublishAll(n, COUNTED, DataOf(ps) + [Control(END)]);
    assert SentBy(w.pub, |ps|) == ps && [] + ps == ps;
  }

  function Ending(n: nat, ps: seq<string>): seq<Action> { [PubStop(|ps|)] + Each(n, Polls(|ps| + 1)) }

  lemma {:induction false} Delivers(w: World, n: nat, ps: seq<string>)
    requires w.peers == All(n, COUNTED) && Ready(w.pub) && !w.pub.stopped && w.pub.buffers == ps == w.consumed &&
             w.sent == []
    ensures var v := Steps(w, Ending(n, ps));
            v.sent == ps == v.consumed && v.peers == All(n, Polled(Full(ps), |ps| + 1, false))
  {
    var v := Act(w, PubStop(|ps|));
    StopsWith(w, n, ps);
    StepOn(w, [], PubStop(|ps|), w, v);
    assert [] + [PubStop(|ps|)] == [PubStop(|ps|)];
    PollsTurn(|ps| + 1, Full(ps));
    AllTurn(v, Polls(|ps| + 1), n, Full(ps), Polled(Full(ps), |ps| + 1, false));
    StepsConcat(w, [PubStop(|ps|)], Each(n, Polls(|ps| + 1)));
  }

  /** For any number of subscribers and any payloads there is a run in which all that is consumed is sent, and every
      subscriber handles it up to the end: all of it exactly if no payload reads "connect" or "end". */
  lemma {:induction false} Delivery(n: nat, ps: seq<string>) returns (actions: seq<Action>)
    ensures var w := Reached(n, actions);
            && w.consumed == ps && w.sent == ps
            && forall i | 0 <= i < n :: w.peers[i].sub.sawEnd && w.peers[i].sub.handled == Heard(ps)
  {
    actions := Handshake(n) + (Consumes(ps) + Ending(n, ps));
    var w := Steps(Init(n), Handshake(n));
    AllAreCounted(n);
    AllConsumed(w, ps);
    Delivers(w.(pub := w.pub.(buffers := ps), consumed := ps), n, ps);
    StepsConcat(Init(n), Handshake(n), Consumes(ps) + Ending(n, ps));
    StepsConcat(w, Consumes(ps), Ending(n, ps));
    ReachedIsSteps(n, actions);
    FullReads(ps);
    forall i | 0 <= i < n ensures Reached(n, actions).peers[i].sub.handled == Heard(ps) {
      HandledInOrder(n, actions, i);
    }
  }
}
