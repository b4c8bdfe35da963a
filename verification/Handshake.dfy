/** The two ends of the handshake as event handlers. A socket shows as the messages sent on it; the event loop's answers
    (how often a socket can be written or read) are parameters. */
module Handshake {
  import opened HandshakeSpec

  /** The PUB socket, and how many subscribers are still expected. */
  class Publisher {
    var expectedSubscribers: int
    var published: seq<Message>

    constructor (subscribers: nat)
      ensures expectedSubscribers == subscribers && published == []
    {
      expectedSubscribers := subscribers;
      published := [];
    }

    predicate IsReady()
      reads this
    {
      expectedSubscribers <= 0
    }

    method Send(m: Message)
      modifies this`published
      ensures published == old(published) + [m]
    {
      published := published + [m];
    }

    method TrySynchronize()
      modifies this`published
      ensures published == old(published) + if IsReady() then [] else [Control(CONNECT)]
    {
      if IsReady() { return; }
      Send(Control(CONNECT));
    }

    method AddConnection()
      modifies this`expectedSubscribers
      ensures expectedSubscribers == old(expectedSubscribers) - 1
    {
      expectedSubscribers := expectedSubscribers - 1;
    }
  }

  class PublisherConsumer {
    const publisher: Publisher
    var socketIsWriteable: bool
    var dataBuffers: seq<string>
    var synchronizePollers: seq<bool>
    var connectTimer: bool
    var active: bool
    var stopped: bool

    constructor (publisher: Publisher, subscribers: nat)
      ensures this.publisher == publisher
      ensures publisher.expectedSubscribers == subscribers ==> View() == Init(subscribers).pub
    {
      this.publisher := publisher;
      socketIsWriteable, dataBuffers, synchronizePollers := false, [], seq(subscribers, _ => true);
      connectTimer, active, stopped := false, false, false;
    }

    ghost function View(): PubState
      reads this, publisher
    {
      PubState(publisher.expectedSubscribers, socketIsWriteable, dataBuffers, synchronizePollers, connectTimer, active,
               stopped)
    }

    method Start()
      requires !stopped
      modifies this
      ensures View() == old(View()).(active := true, timerOn := true)
    {
      active, connectTimer := true, true;
    }

    method Consume(payload: string)
      modifies this
      ensures View() == old(View()).(buffers := old(dataBuffers) + [payload])
    {
      dataBuffers := dataBuffers + [payload];
    }

    method OnTimer()
      modifies this, publisher
      ensures View() == AfterTimer(old(View()))
      ensures var missing := old(publisher.expectedSubscribers) > 0;
              var invites := old(connectTimer) && missing && old(socketIsWriteable);
              && publisher.published == old(publisher.published) + (if invites then [Control("connect")] else [])
              && socketIsWriteable == (old(socketIsWriteable) && !invites)
              && connectTimer == (old(connectTimer) && missing)
    {
      if !connectTimer { return; }
      if !publisher.IsReady() && socketIsWriteable {
        publisher.TrySynchronize();
        socketIsWriteable := false;
      } else if publisher.IsReady() {
        connectTimer := false;
      }
    }

    method FlushBuffer()
      modifies this, publisher
      ensures old(socketIsWriteable && dataBuffers != []) ==>
                && View() == old(View()).(writeable := false, buffers := old(dataBuffers)[1..])
                && publisher.published == old(publisher.published) + [Data(old(dataBuffers)[0])]
      ensures !old(socketIsWriteable && dataBuffers != []) ==>
                View() == old(View()) && publisher.published == old(publisher.published)
    {
      if !socketIsWriteable || dataBuffers == [] { return; }
      publisher.Send(Data(dataBuffers[0]));
      socketIsWriteable := false;
      dataBuffers := dataBuffers[1..];
    }

    /** The socket reports that it can be written: the first payload goes out, if there is one and all are counted. */
    method SendNext() returns (sent: bool)
      modifies this, publisher
      ensures sent <==> Ready(old(View())) && old(dataBuffers) != []
      ensures sent ==> View() == FirstSent(old(View()))
      ensures sent ==> publisher.published == old(publisher.published) + [Data(old(dataBuffers)[0])]
      ensures !sent ==> View() == old(View()).(writeable := true) && publisher.published == old(publisher.published)
    {
      socketIsWriteable := true;
      sent := publisher.IsReady() && dataBuffers != [];
      if sent { FlushBuffer(); }
    }

    /** `polls` is how many times in a row the socket reports that it can be written. */
    method StartSending(polls: nat)
      modifies this, publisher
      ensures View() == AfterSending(old(View()), polls)
      ensures publisher.published == old(publisher.published) + DataOf(SentBy(old(View()), polls))
      ensures var waiting := |old(dataBuffers)|;
              var k := if old(publisher.expectedSubscribers) > 0 then 0
                       else if polls <= waiting then polls else waiting;
              && SentBy(old(View()), polls) == old(dataBuffers)[..k] && dataBuffers == old(dataBuffers)[k..]
              && socketIsWriteable == if polls == 0 then old(socketIsWriteable) else k < polls
    {
      var left := polls;
      ghost var start, published, p := View(), publisher.published, View();
      while left > 0
        invariant p == View() && Sending(start, published, polls, p, publisher.published, left)
      {
        ghost var now := publisher.published;
        var sent := SendNext();
        if !sent {
          SendingEnds(start, published, polls, p, now, left);
          return;
        }
        SendOne(start, published, polls, p, now, left);
        p, left := FirstSent(p), left - 1;
      }
      SendingEnds(start, published, polls, p, publisher.published, 0);
    }

    method OnSynchronize(i: nat, pending: bool, disconnected: bool)
      requires i < |synchronizePollers| && synchronizePollers[i]
      modifies this, publisher
      ensures View() == AfterSync(old(View()), i, pending, disconnected)
      ensures publisher.published == old(publisher.published)
      ensures publisher.expectedSubscribers == old(publisher.expectedSubscribers) - if pending then 1 else 0
      ensures synchronizePollers
           == if pending || disconnected then old(synchronizePollers)[i := false] else old(synchronizePollers)
    {
      if pending {
        publisher.AddConnection();
        synchronizePollers := synchronizePollers[i := false];
        return;
      }
      if disconnected { synchronizePollers := synchronizePollers[i := false]; }
    }

    method Stop(polls: nat)
      modifies this, publisher
      ensures View() == AfterStop(old(View()), polls)
      ensures publisher.published == old(publisher.published) + (DataOf(SentBy(old(View()), polls)) + [Control(END)])
      ensures !connectTimer && !active && stopped && forall i | 0 <= i < |synchronizePollers| :: !synchronizePollers[i]
    {
      StartSending(polls);
      publisher.Send(Control(END));
      ClosePollers();
      connectTimer, active, stopped := false, false, true;
    }

    method ClosePollers()
      modifies this`synchronizePollers
      ensures synchronizePollers == seq(|old(synchronizePollers)|, _ => false)
    {
      var i := 0;
      while i < |synchronizePollers|
        invariant 0 <= i <= |synchronizePollers| == |old(synchronizePollers)|
        invariant forall j | 0 <= j < i :: !synchronizePollers[j]
      {
        synchronizePollers := synchronizePollers[i := false];
        i := i + 1;
      }
    }
  }

  /** The publisher once the first buffered payload is out. */
  ghost function FirstSent(p: PubState): PubState
    requires p.buffers != []
  {
    p.(writeable := false, buffers := p.buffers[1..])
  }

  /** From `p`, with `left` polls to go, the publisher ends where it would from `start` with all of them. */
  ghost predicate Sending(start: PubState, published: seq<Message>, polls: nat, p: PubState, now: seq<Message>,
                          left: nat)
  {
    && AfterSending(p, left) == AfterSending(start, polls)
    && now + DataOf(SentBy(p, left)) == published + DataOf(SentBy(start, polls))
  }

  lemma {:induction false} SendOne(start: PubState, published: seq<Message>, polls: nat, p: PubState, now: seq<Message>,
                                   left: nat)
    requires Ready(p) && p.buffers != [] && left > 0 && Sending(start, published, polls, p, now, left)
    ensures Sending(start, published, polls, FirstSent(p), now + [Data(p.buffers[0])], left - 1)
  {
    SendsFirst(p, left);
    var k := Sendable(p, left);
    assert p.buffers[1..][k - 1..] == p.buffers[k..];
  }

  lemma {:induction false} SendsFirst(p: PubState, polls: nat)
    requires Ready(p) && p.buffers != [] && polls > 0
    ensures DataOf(SentBy(p, polls)) == [Data(p.buffers[0])] + DataOf(SentBy(FirstSent(p), polls - 1))
  {
    var k := Sendable(p, polls);
    assert DataOf(p.buffers[..k]) == [Data(p.buffers[0])] + DataOf(p.buffers[1..][..k - 1]);
  }

  lemma {:induction false} SendingEnds(start: PubState, published: seq<Message>, polls: nat, p: PubState,
                                       now: seq<Message>, left: nat)
    requires Sending(start, published, polls, p, now, left) && (left == 0 || !Ready(p) || p.buffers == [])
    ensures AfterSending(start, polls) == if left == 0 then p else p.(writeable := true)
    ensures now == published + DataOf(SentBy(start, polls))
  {
    assert DataOf(SentBy(p, left)) == [] && now + [] == now;
  }

  /** Readiness, and how often a confirmation has been sent on the REQ socket. */
  class Subscriber {
    var isReady: bool
    var confirmations: nat

    constructor ()
      ensures !isReady && confirmations == 0
    {
      isReady, confirmations := false, 0;
    }

    method PrepareForListening()
      modifies this`isReady
      ensures isReady
    {
      isReady := true;
    }

    method Confirm()
      modifies this`confirmations
      ensures confirmations == old(confirmations) + 1
    {
      confirmations := confirmations + 1;
    }
  }

  /** `handled` is what the node has been given. */
  class SubscriberProducer {
    const subscriber: Subscriber
    var started: bool
    var poller: bool
    var synchronizePoller: bool
    var readyToConfirmConnection: bool
    var sawEnd: bool
    var handled: seq<string>

    constructor (subscriber: Subscriber)
      ensures this.subscriber == subscriber
      ensures !started && !poller && !synchronizePoller && !readyToConfirmConnection && !sawEnd && handled == []
    {
      this.subscriber := subscriber;
      started, poller, synchronizePoller, readyToConfirmConnection, sawEnd, handled := false, false, false, false,
          false, [];
    }

    ghost function View(): SubState
      reads this, subscriber
    {
      SubState(started, poller, synchronizePoller, subscriber.isReady, readyToConfirmConnection, sawEnd, handled)
    }

    /** Drains the `k` messages that are there, then starts the pollers. `link` is the connection's history. */
    method Start(channel: seq<Message>, k: nat, ghost link: Link) returns (rest: seq<Message>, ghost link': Link)
      requires !started && link.channel == channel && k <= |channel|
      modifies this
      ensures Peer(View(), link') == Started(Peer(old(View()), link), k) && link'.channel == rest
      ensures rest == channel[k..] && started && poller && synchronizePoller && handled == old(handled)
    {
      rest := channel;
      var left := k;
      while left > 0
        invariant 0 <= left <= k && rest == channel[k - left..]
        invariant View() == old(View())
      {
        rest := rest[1..];
        left := left - 1;
      }
      started, poller, synchronizePoller := true, true, true;
      link' := link.(channel := rest, discarded := link.discarded + channel[..k]);
    }

    method ConfirmConnection()
      modifies this`synchronizePoller, subscriber`confirmations
      ensures !synchronizePoller && subscriber.confirmations == old(subscriber.confirmations) + 1
    {
      subscriber.Confirm();
      synchronizePoller := false;
    }

    method Stop()
      modifies this`poller, this`synchronizePoller
      ensures View() == AfterDisconnect(old(View()))
    {
      poller, synchronizePoller := false, false;
    }

    /** One message of the poll handler's loop. */
    method Read(m: Message)
      requires poller
      modifies this, subscriber
      ensures View() == Hear(old(View()), m)
      ensures subscriber.confirmations == old(subscriber.confirmations) + if Confirms(old(View()), m) then 1 else 0
      ensures subscriber.isReady == (old(subscriber.isReady) || m.text != "end")
      ensures sawEnd == (old(sawEnd) || m.text == "end") && poller == (m.text != "end")
      ensures subscriber.confirmations == old(subscriber.confirmations) +
              if m.text != "end" && !old(subscriber.isReady) && readyToConfirmConnection then 1 else 0
      ensures handled == old(handled) +
              if old(subscriber.isReady) && m.text != "end" && m.text != "connect" then [m.text] else []
    {
      if m.text == END {
        Stop();
        sawEnd := true;
      } else if !subscriber.isReady {
        subscriber.PrepareForListening();
        if readyToConfirmConnection { ConfirmConnection(); }
      } else if m.text != CONNECT {
        handled := handled + [m.text];
      }
    }

    /** `k` is how many messages are reported as readable. */
    method OnPoll(channel: seq<Message>, k: nat, disconnected: bool, ghost link: Link)
      returns (rest: seq<Message>, ghost link': Link)
      requires poller && link.channel == channel
      modifies this, subscriber
      ensures Peer(View(), link') == Polled(Peer(old(View()), link), k, disconnected) && link'.channel == rest
      ensures subscriber.confirmations - old(subscriber.confirmations) == link'.confirms - link.confirms
    {
      rest, link' := channel, link;
      var left := k;
      while left > 0 && rest != [] && poller
        invariant HearUpTo(Peer(View(), link'), left) == HearUpTo(Peer(old(View()), link), k)
        invariant link'.channel == rest
        invariant subscriber.confirmations - old(subscriber.confirmations) == link'.confirms - link.confirms
        decreases left
      {
        ghost var peer := Peer(View(), link');
        Read(rest[0]);
        link' := HearFirst(peer).link;
        rest := rest[1..];
        left := left - 1;
      }
      if disconnected { Stop(); }
    }

    method OnSynchronize(pollout: bool, ghost link: Link) returns (ghost link': Link)
      requires synchronizePoller
      modifies this, subscriber
      ensures Peer(View(), link') == Synced(Peer(old(View()), link), pollout)
      ensures subscriber.confirmations - old(subscriber.confirmations) == link'.confirms - link.confirms
      ensures synchronizePoller == !pollout && readyToConfirmConnection == (old(readyToConfirmConnection) || pollout)
      ensures subscriber.confirmations
           == old(subscriber.confirmations) + if pollout && subscriber.isReady then 1 else 0
    {
      link' := HandshakeSpec.Confirm(link, ConfirmsOnSync(View(), pollout));
      if pollout {
        readyToConfirmConnection := true;
        if subscriber.isReady { ConfirmConnection(); } else { synchronizePoller := false; }
      }
    }
  }
}
