/** PhoenixWSSDistributor of wss_distributor.py: its fields, updated in place, are the state after the run so far. */
module DistributorServer {
  import opened DeliveryOrder
  import opened Distributor
  import opened Optional
  import opened RegularDelivery

  class PhoenixWSSDistributor {
    const cfg: Config
    var clock: int
    var count: nat
    var delayBuf: seq<Message>
    var infos: map<Client, ClientInfo>
    var clients: set<Client>
    var replays: map<Client, seq<Message>>
    var push: Push
    /** Everything that left the server, and every event so far. */
    ghost var sent: seq<Delivery>
    ghost var events: seq<Event>

    ghost function Snapshot(): State
      reads this
    {
      State(clock, count, delayBuf, infos, clients, replays, push, sent)
    }

    ghost predicate Valid()
      reads this
    {
      After(cfg, events) == Some(Snapshot())
    }

    constructor (cfg: Config)
      ensures Valid() && this.cfg == cfg && events == [] && sent == []
    {
      this.cfg := cfg;
      clock, count, delayBuf := 0, 0, [];
      infos, clients, replays, push := map[], {}, map[], Asleep;
      sent, events := [], [];
    }

    /**
     * What every object promises after any run: a bounded buffer in time and broadcast order, nothing sent to a
     * public client before its delay, and broadcast order without repeats for every client whose run is regular.
     */
    lemma Promises()
      requires Valid()
      ensures |delayBuf| <= cfg.maxlen && Sorted(delayBuf)
      ensures forall i | 0 <= i < |sent| :: IsClientPublic(Snapshot(), sent[i].client) ==>
        sent[i].msg.ts + cfg.delay <= sent[i].at <= clock
      ensures forall c | IsClientPublic(Snapshot(), c) && RegularRun(cfg, events, c) :: InOrder(SentTo(sent, c))
    {
      PublicDelay(cfg, events);
      forall i | 0 <= i < |sent| ensures DelayOk(cfg, Snapshot(), sent[i]) {
      }
      forall c | IsClientPublic(Snapshot(), c) && RegularRun(cfg, events, c) ensures InOrder(SentTo(sent, c)) {
        RegularOrder(cfg, events, c);
      }
    }

    /**
     * ... and with a positive delay a client of a regular, resumable run has received all that is buffered before its
     * last message.
     */
    lemma SkipsNothing(c: Client, m: Message)
      requires Valid() && cfg.delay > 0
      requires IsClientPublic(Snapshot(), c) && RegularRun(cfg, events, c) && ResumableRun(cfg, events, c)
      requires m in delayBuf && m.ts > 0
      requires SentTo(sent, c) != [] && m.id < SentTo(sent, c)[|SentTo(sent, c)| - 1].id
      ensures m in SentTo(sent, c)
    {
      hide After, RegularRun, ResumableRun, SentTo;
      NothingSkipped(cfg, events, c, m);
    }

    lemma BufferHere()
      requires Valid()
      ensures |delayBuf| <= cfg.maxlen && Sorted(delayBuf)
    {
      PublicDelay(cfg, events);
      hide After;
    }

    /** What waits for a public client is old enough to be sent now, and an unknown client has received nothing. */
    lemma WaitingHere()
      requires Valid()
      ensures forall c | c in replays :: OldEnough(replays[c], clock - cfg.delay)
      ensures push.Round? ==> OldEnough(push.pending, clock - cfg.delay)
      ensures forall c | c !in infos :: SentTo(sent, c) == []
    {
      PublicDelay(cfg, events);
      forall c | c !in infos ensures SentTo(sent, c) == [] {
        UnknownFlight(cfg, Snapshot(), c);
      }
      hide After;
    }

    /** Time passes. */
    method Tick(d: nat)
      requires Valid()
      modifies `clock, `events
      ensures Valid() && events == old(events) + [Event.Tick(d)]
    {
      hide After;
      AfterExtend(cfg, events, Event.Tick(d), Snapshot());
      clock := clock + d;
      events := events + [Event.Tick(d)];
    }

    /** The synchronous part of `broadcast`: stamp the message and append it to the bounded buffer. */
    method Broadcast()
      requires Valid()
      modifies `count, `delayBuf, `events
      ensures Valid() && events == old(events) + [Event.Broadcast]
      ensures |delayBuf| <= cfg.maxlen && Sorted(delayBuf)
      ensures cfg.maxlen > 0 ==> delayBuf != [] && delayBuf[|delayBuf| - 1] == Message(clock, old(count))
    {
      hide After, Sorted;
      AfterExtend(cfg, events, Event.Broadcast, Snapshot());
      delayBuf := delayBuf + [Message(clock, count)];
      if |delayBuf| > cfg.maxlen { delayBuf := delayBuf[1..]; }
      count := count + 1;
      events := events + [Event.Broadcast];
      BufferHere();
    }

    /** `handle_client`: a new connection enters the dictionary with its marker at zero. */
    method Register(client: Client, tier: Tier)
      requires Valid() && Enabled(Snapshot(), Event.Register(client, tier))
      modifies `infos, `clients, `events
      ensures Valid() && events == old(events) + [Event.Register(client, tier)]
      ensures client in clients && infos[client] == ClientInfo(tier, 0) && SentTo(sent, client) == []
    {
      hide After;
      WaitingHere();
      AfterExtend(cfg, events, Event.Register(client, tier), Snapshot());
      infos := infos[client := ClientInfo(tier, 0)];
      clients := clients + {client};
      events := events + [Event.Register(client, tier)];
    }

    /** The start of `_replay_public`: everything up to the first message that is too young. */
    method StartReplay(client: Client)
      requires Valid() && Enabled(Snapshot(), Event.StartReplay(client))
      modifies `replays, `events
      ensures Valid() && events == old(events) + [Event.StartReplay(client)]
      ensures client in replays && replays[client] <= delayBuf
      ensures forall m :: m in replays[client] <==> m in delayBuf && m.ts + cfg.delay <= clock
    {
      hide After, OldPrefix;
      BufferHere();
      OldPrefixExact(delayBuf, clock - cfg.delay);
      AfterExtend(cfg, events, Event.StartReplay(client), Snapshot());
      var pending := TakeOld(clock - cfg.delay);
      replays := replays[client := pending];
      events := events + [Event.StartReplay(client)];
    }

    method TakeOld(cutoff: int) returns (r: seq<Message>)
      ensures r == OldPrefix(delayBuf, cutoff)
    {
      hide OldPrefix;
      var i := 0;
      assert delayBuf[0..] == delayBuf;
      while i < |delayBuf| && delayBuf[i].ts <= cutoff
        invariant 0 <= i <= |delayBuf|
        invariant delayBuf[..i] + OldPrefix(delayBuf[i..], cutoff) == OldPrefix(delayBuf, cutoff)
      {
        OldTaken(delayBuf, i, cutoff);
        i := i + 1;
      }
      r := delayBuf[..i];
      OldStops(delayBuf, i, cutoff);
    }

    /** A send that went through: it is recorded, and the marker moves while the client is registered. */
    method Sent(client: Client, m: Message, replayed: bool)
      requires client in infos
      modifies `sent, `infos
      ensures Snapshot() == Deliver(old(Snapshot()), client, m, replayed)
      ensures sent == old(sent) + [Delivery(client, m, clock, replayed)]
    {
      sent := sent + [Delivery(client, m, clock, replayed)];
      if client in clients { infos := infos[client := infos[client].(lastSent := m.ts)]; }
    }

    /** One send of the replay loop; a failure ends the replay. */
    method SendReplay(client: Client, outcome: Outcome)
      requires Valid() && Enabled(Snapshot(), Event.SendReplay(client, outcome))
      modifies `replays, `infos, `sent, `events
      ensures Valid() && events == old(events) + [Event.SendReplay(client, outcome)]
      ensures var m := old(replays[client][0]);
        m.ts + cfg.delay <= clock
        && sent == if outcome == Lost then old(sent) else old(sent) + [Delivery(client, m, clock, true)]
    {
      hide After;
      WaitingHere();
      AfterExtend(cfg, events, Event.SendReplay(client, outcome), Snapshot());
      hide Deliver;
      events := events + [Event.SendReplay(client, outcome)];
      var pending := replays[client];
      if outcome != Through {
        if outcome == Late { sent := sent + [Delivery(client, pending[0], clock, true)]; }
        replays := replays[client := []];
        return;
      }
      Sent(client, pending[0], true);
      replays := replays[client := pending[1..]];
    }

    /** The push task wakes up: cutoff and the list of public clients are fixed for the round. */
    method StartPush(todo: seq<Client>)
      requires Valid() && Enabled(Snapshot(), Event.StartPush(todo))
      modifies `push, `events
      ensures Valid() && events == old(events) + [Event.StartPush(todo)]
      ensures todo != [] ==> push == Round(clock - cfg.delay, todo, None, [], {})
    {
      hide After;
      AfterExtend(cfg, events, Event.StartPush(todo), Snapshot());
      events := events + [Event.StartPush(todo)];
      if todo == [] { return; }
      push := Round(clock - cfg.delay, todo, None, [], {});
    }

    /** The next client of the round: its marker is read and what is due is listed; the end drops failed clients. */
    method NextClient()
      requires Valid() && Enabled(Snapshot(), Event.NextClient)
      modifies `push, `clients, `events
      ensures Valid() && events == old(events) + [Event.NextClient]
      ensures if old(push.todo) == [] then push == Asleep && clients == old(clients - push.dead)
        else
          var c := old(push.todo[0]);
          && clients == old(clients) && push.Round? && push.cutoff == old(push.cutoff)
          && push.todo == old(push.todo)[1..] && push.current == Some(c) && push.dead == old(push.dead)
          && forall m :: m in push.pending <==> m in delayBuf && infos[c].lastSent < m.ts <= old(push.cutoff)
    {
      hide After, Due;
      if push.todo != [] { DueExact(delayBuf, infos[push.todo[0]].lastSent, push.cutoff); }
      AfterExtend(cfg, events, Event.NextClient, Snapshot());
      events := events + [Event.NextClient];
      if push.todo == [] {
        clients := clients - push.dead;
        push := Asleep;
        return;
      }
      var client := push.todo[0];
      var due := TakeDue(infos[client].lastSent, push.cutoff);
      push := Round(push.cutoff, push.todo[1..], Some(client), due, push.dead);
    }

    method TakeDue(last: int, cutoff: int) returns (due: seq<Message>)
      ensures due == Due(delayBuf, last, cutoff)
    {
      due := [];
      assert delayBuf[0..] == delayBuf;
      for i := 0 to |delayBuf|
        invariant due + Due(delayBuf[i..], last, cutoff) == Due(delayBuf, last, cutoff)
      {
        assert delayBuf[i..][1..] == delayBuf[i + 1..];
        if last < delayBuf[i].ts && delayBuf[i].ts <= cutoff { due := due + [delayBuf[i]]; }
      }
      assert due == due + Due(delayBuf[|delayBuf|..], last, cutoff);
    }

    /** One send of the push loop; a failure, or a client that is no longer in the dictionary, ends its turn. */
    method SendPush(outcome: Outcome)
      requires Valid() && Enabled(Snapshot(), Event.SendPush(outcome))
      modifies `push, `infos, `sent, `events
      ensures Valid() && events == old(events) + [Event.SendPush(outcome)]
      ensures if outcome == Lost || old(push.pending) == [] then sent == old(sent)
        else
          var c, m := old(push.current.value), old(push.pending[0]);
          m.ts + cfg.delay <= clock && sent == old(sent) + [Delivery(c, m, clock, false)]
    {
      hide After;
      WaitingHere();
      AfterExtend(cfg, events, Event.SendPush(outcome), Snapshot());
      hide Deliver;
      events := events + [Event.SendPush(outcome)];
      if push.pending == [] {
        push := push.(current := None);
        return;
      }
      var client, m := push.current.value, push.pending[0];
      if outcome == Through {
        Sent(client, m, false);
      } else if outcome == Late {
        sent := sent + [Delivery(client, m, clock, false)];
      }
      if outcome == Through && client in clients {
        push := push.(pending := push.pending[1..]);
      } else {
        push := push.(current := None, pending := [], dead := push.dead + {client});
      }
    }

    /** One immediate send of `broadcast` to a client that is not public. */
    method SendPaying(client: Client, m: Message)
      requires Valid() && Enabled(Snapshot(), Event.SendPaying(client, m))
      modifies `infos, `sent, `events
      ensures Valid() && events == old(events) + [Event.SendPaying(client, m)]
      ensures forall c | c != client :: SentTo(sent, c) == SentTo(old(sent), c)
      ensures SentTo(sent, client) == SentTo(old(sent), client) + [m]
    {
      hide After;
      AfterExtend(cfg, events, Event.SendPaying(client, m), Snapshot());
      hide Deliver;
      Sent(client, m, false);
      forall c ensures SentTo(sent, c) == if c == client then SentTo(old(sent), c) + [m] else SentTo(old(sent), c) {
        SentToExtend(old(sent), Delivery(client, m, clock, false), c);
      }
      events := events + [Event.SendPaying(client, m)];
    }

    /** The connection ends or is dropped after a failed send. */
    method Disconnect(client: Client)
      requires Valid()
      modifies `clients, `events
      ensures Valid() && events == old(events) + [Event.Disconnect(client)]
      ensures client !in clients && forall c | c in old(clients) && c != client :: c in clients
    {
      hide After;
      AfterExtend(cfg, events, Event.Disconnect(client), Snapshot());
      clients := clients - {client};
      events := events + [Event.Disconnect(client)];
    }
  }

  /** An old enough message moves from what is still to be scanned to what was taken. */
  lemma OldTaken(buf: seq<Message>, i: nat, cutoff: int)
    requires i < |buf| && buf[i].ts <= cutoff
    ensures buf[..i] + OldPrefix(buf[i..], cutoff) == buf[..i + 1] + OldPrefix(buf[i + 1..], cutoff)
  {
    assert buf[i..][1..] == buf[i + 1..];
    assert buf[..i] + [buf[i]] == buf[..i + 1];
  }

  lemma OldStops(buf: seq<Message>, i: nat, cutoff: int)
    requires i == |buf| || (i < |buf| && buf[i].ts > cutoff)
    ensures buf[..i] + OldPrefix(buf[i..], cutoff) == buf[..i]
  {
  }
}
