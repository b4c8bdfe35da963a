/** The start-up handshake of one publisher and its subscribers, as a transition system. */
module HandshakeSpec {

  const CONNECT := "connect"
  const END := "end"

  /** What travels on the PUB/SUB channel. Receivers only see the text. */
  datatype Message = Control(text: string) | Data(text: string)

  // ----- the publisher's side -----

  /** `expected` subscribers have not been counted yet; `syncOpen[i]` while the poller of sync socket `i` is open. */
  datatype PubState = PubState(expected: int, writeable: bool, buffers: seq<string>, syncOpen: seq<bool>, timerOn: bool,
                               active: bool, stopped: bool)

  predicate Ready(p: PubState) { p.expected <= 0 }

  function DataOf(payloads: seq<string>): seq<Message> {
    seq(|payloads|, i requires 0 <= i < |payloads| => Data(payloads[i]))
  }

  /** How many buffered payloads go out if the socket takes `polls` more messages. */
  function Sendable(p: PubState, polls: nat): (k: nat)
    ensures k <= |p.buffers|
  {
    if !Ready(p) then 0 else if polls <= |p.buffers| then polls else |p.buffers|
  }

  function AfterSending(p: PubState, polls: nat): PubState {
    p.(buffers := p.buffers[Sendable(p, polls)..],
       writeable := if polls == 0 then p.writeable else !Ready(p) || polls > |p.buffers|)
  }

  function SentBy(p: PubState, polls: nat): seq<string> { p.buffers[..Sendable(p, polls)] }

  /** The timer invites subscribers while some are missing. */
  predicate Invites(p: PubState) { p.timerOn && !Ready(p) && p.writeable }

  function AfterTimer(p: PubState): PubState {
    if Invites(p) then p.(writeable := false)
    else if p.timerOn && Ready(p) then p.(timerOn := false)
    else p
  }

  /** Sync socket `i` reports a confirmation, if one is `pending`, or that its peer is gone. */
  function AfterSync(p: PubState, i: nat, pending: bool, disconnected: bool): PubState
    requires i < |p.syncOpen|
  {
    if pending then p.(expected := p.expected - 1, syncOpen := p.syncOpen[i := false])
    else if disconnected then p.(syncOpen := p.syncOpen[i := false])
    else p
  }

  function AfterStop(p: PubState, polls: nat): PubState {
    AfterSending(p, polls).(timerOn := false, active := false, stopped := true,
                            syncOpen := seq(|p.syncOpen|, _ => false))
  }

  // ----- a subscriber's side -----

  datatype SubState = SubState(
    started: bool, open: bool, syncOpen: bool, ready: bool, readyToConfirm: bool, sawEnd: bool, handled: seq<string>)

  predicate Confirms(s: SubState, m: Message) { m.text != END && !s.ready && s.readyToConfirm }

  predicate Discards(s: SubState, m: Message) { m.text != END && !s.ready }

  /** A subscriber whose poller is open reads one message. */
  function Hear(s: SubState, m: Message): SubState {
    if m.text == END then s.(open := false, syncOpen := false, sawEnd := true)
    else if !s.ready then s.(ready := true, syncOpen := s.syncOpen && !s.readyToConfirm)
    else if m.text != CONNECT then s.(handled := s.handled + [m.text])
    else s
  }

  predicate ConfirmsOnSync(s: SubState, pollout: bool) { s.syncOpen && pollout && s.ready }

  function AfterPollout(s: SubState, pollout: bool): SubState {
    if s.syncOpen && pollout then s.(readyToConfirm := true, syncOpen := false) else s
  }

  function AfterDisconnect(s: SubState): SubState { s.(open := false, syncOpen := false) }

  // ----- the whole system -----

  /** The connection to one subscriber: what is under way, and what has happened on it. */
  datatype Link = Link(joined: bool, channel: seq<Message>, discarded: seq<Message>,
                       pending: bool, confirms: nat, counted: bool)

  datatype Peer = Peer(sub: SubState, link: Link)

  datatype World = World(pub: PubState, peers: seq<Peer>, consumed: seq<string>, sent: seq<string>)

  datatype Action =
    | Join(i: nat)
    | Consume(payload: string)
    | PubStart
    | Timer
    | PubPoll(polls: nat)
    | PubSync(i: nat, disconnected: bool)
    | PubStop(polls: nat)
    | SubStart(i: nat, k: nat)
    | SubPoll(i: nat, k: nat, disconnected: bool)
    | SubSync(i: nat, pollout: bool)

  /** What is published reaches the subscribers that have joined; to the others it is lost. */
  function Receive(p: Peer, ms: seq<Message>): Peer {
    if p.link.joined then p.(link := p.link.(channel := p.link.channel + ms)) else p
  }

  function Publish(peers: seq<Peer>, ms: seq<Message>): seq<Peer> {
    seq(|peers|, i requires 0 <= i < |peers| => Receive(peers[i], ms))
  }

  function Confirm(l: Link, confirm: bool): Link {
    if confirm then l.(pending := true, confirms := l.confirms + 1) else l
  }

  /** The subscriber reads the first message of its channel. */
  function HearFirst(p: Peer): Peer
    requires p.link.channel != []
  {
    var m := p.link.channel[0];
    var l := p.link.(channel := p.link.channel[1..],
                     discarded := p.link.discarded + if Discards(p.sub, m) then [m] else []);
    Peer(Hear(p.sub, m), Confirm(l, Confirms(p.sub, m)))
  }

  /** The poll handler reads up to `k` messages, stopping at the end message. */
  function HearUpTo(p: Peer, k: nat): Peer
    decreases k
  {
    if k == 0 || p.link.channel == [] || !p.sub.open then p else HearUpTo(HearFirst(p), k - 1)
  }

  function Started(p: Peer, k: nat): Peer {
    var n := if k <= |p.link.channel| then k else |p.link.channel|;
    Peer(p.sub.(started := true, open := true, syncOpen := true),
         p.link.(channel := p.link.channel[n..], discarded := p.link.discarded + p.link.channel[..n]))
  }

  function Polled(p: Peer, k: nat, disconnected: bool): Peer {
    if !p.sub.open then p
    else var q := HearUpTo(p, k); if disconnected then q.(sub := AfterDisconnect(q.sub)) else q
  }

  function Synced(p: Peer, pollout: bool): Peer {
    Peer(AfterPollout(p.sub, pollout), Confirm(p.link, ConfirmsOnSync(p.sub, pollout)))
  }

  /** Events of a handle that is closed, or of a subscriber that does not exist, do not occur. */
  function Act(w: World, a: Action): World {
    match a
    case Join(i) =>
      if i < |w.peers| then w.(peers := w.peers[i := w.peers[i].(link := w.peers[i].link.(joined := true))]) else w
    case Consume(payload) =>
      w.(pub := w.pub.(buffers := w.pub.buffers + [payload]), consumed := w.consumed + [payload])
    case PubStart => if w.pub.stopped then w else w.(pub := w.pub.(active := true, timerOn := true))
    case Timer =>
      w.(pub := AfterTimer(w.pub), peers := if Invites(w.pub) then Publish(w.peers, [Control(CONNECT)]) else w.peers)
    case PubPoll(polls) =>
      if !w.pub.active then w else
        World(AfterSending(w.pub, polls), Publish(w.peers, DataOf(SentBy(w.pub, polls))), w.consumed,
              w.sent + SentBy(w.pub, polls))
    case PubSync(i, disconnected) =>
      if !w.pub.active || i >= |w.peers| || i >= |w.pub.syncOpen| || !w.pub.syncOpen[i] then w else
        var l := w.peers[i].link;
        w.(pub := AfterSync(w.pub, i, l.pending, disconnected),
           peers := if l.pending then w.peers[i := w.peers[i].(link := l.(pending := false, counted := true))]
               else w.peers)
    case PubStop(polls) =>
      if w.pub.stopped then w else
        World(AfterStop(w.pub, polls), Publish(w.peers, DataOf(SentBy(w.pub, polls)) + [Control(END)]), w.consumed,
              w.sent + SentBy(w.pub, polls))
    case SubStart(i, k) =>
      if i < |w.peers| && !w.peers[i].sub.started then w.(peers := w.peers[i := Started(w.peers[i], k)]) else w
    case SubPoll(i, k, disconnected) =>
      if i < |w.peers| then w.(peers := w.peers[i := Polled(w.peers[i], k, disconnected)]) else w
    case SubSync(i, pollout) =>
      if i < |w.peers| then w.(peers := w.peers[i := Synced(w.peers[i], pollout)]) else w
  }

  function Init(n: nat): World {
    World(PubState(n, false, [], seq(n, _ => true), false, false, false),
          seq(n, _ => Peer(SubState(false, false, false, false, false, false, []),
                           Link(false, [], [], false, 0, false))),
          [], [])
  }

  /** The system with `n` subscribers after some actions. */
  function Reached(n: nat, actions: seq<Action>): (w: World)
    ensures |w.peers| == n
  {
    if actions == [] then Init(n) else Act(Reached(n, actions[..|actions| - 1]), actions[|actions| - 1])
  }
}
