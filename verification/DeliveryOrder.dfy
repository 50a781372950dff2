/**
 * The order in which one public client of wss_distributor.py receives messages from the replay and the push loop,
 * and the exact condition under which the two get in each other's way.
 */
module DeliveryOrder {
  import opened Distributor
  import opened Optional

  // ---------- what one client sees ----------

  function SentTo(sent: seq<Delivery>, c: Client): seq<Message> {
    if sent == [] then []
    else
      var front, d := SentTo(sent[..|sent| - 1], c), sent[|sent| - 1];
      if d.client == c then front + [d.msg] else front
  }

  function Received(st: State, c: Client): seq<Message> { SentTo(st.sent, c) }

  /** What the replay task still has to send to the client. */
  function Replaying(st: State, c: Client): seq<Message> { if c in st.replays then st.replays[c] else [] }

  /** What the push task still has to send to the client. */
  function Pushing(st: State, c: Client): seq<Message> {
    if st.push.Round? && st.push.current == Some(c) then st.push.pending else []
  }

  /** Broadcast order without repeats. */
  ghost predicate InOrder(s: seq<Message>) { forall i, j | 0 <= i < j < |s| :: s[i].id < s[j].id }

  /** t starts after the end of s. */
  ghost predicate Behind(s: seq<Message>, t: seq<Message>) { s == [] || t == [] || s[|s| - 1].id < t[0].id }

  /** The list that the event starts to send to the client: a replay, or a turn of the push round. */
  ghost function Started(cfg: Config, st: State, e: Event, c: Client): seq<Message>
    requires Enabled(st, e)
  {
    if e == StartReplay(c) then OldPrefix(st.buf, st.clock - cfg.delay)
    else if e.NextClient? && st.push.todo != [] && st.push.todo[0] == c then
      Due(st.buf, st.infos[c].lastSent, st.push.cutoff)
    else []
  }

  /** The list of the other task. */
  function Other(st: State, e: Event, c: Client): seq<Message> {
    if e.StartReplay? then Pushing(st, c) else Replaying(st, c)
  }

  /** The event starts no list for the client, or one after the other list is finished and after all that was sent. */
  ghost predicate Clean(cfg: Config, st: State, e: Event, c: Client)
    requires Enabled(st, e)
  {
    Started(cfg, st, e, c) == [] || (Other(st, e, c) == [] && Behind(Received(st, c), Started(cfg, st, e, c)))
  }

  // ---------- how one event moves the three lists ----------

  lemma SentToExtend(sent: seq<Delivery>, d: Delivery, c: Client)
    ensures SentTo(sent + [d], c) == if d.client == c then SentTo(sent, c) + [d.msg] else SentTo(sent, c)
  {
    assert (sent + [d])[..|sent + [d]| - 1] == sent;
  }

  lemma NextReceived(cfg: Config, st: State, e: Event, c: Client)
    requires Enabled(st, e)
    ensures Received(Next(cfg, st, e), c) == Received(st, c)
      + if Made(st, e).Some? && Made(st, e).value.client == c then [Made(st, e).value.msg] else []
  {
    hide Next, Enabled, Made;
    NextSent(cfg, st, e);
    if Made(st, e).Some? { SentToExtend(st.sent, Made(st, e).value, c); }
  }

  lemma NextReplaying(cfg: Config, st: State, e: Event, c: Client)
    requires Enabled(st, e)
    ensures Replaying(Next(cfg, st, e), c) ==
      if e == StartReplay(c) then Started(cfg, st, e, c)
      else if e.SendReplay? && e.client == c then if e.outcome == Through then Replaying(st, c)[1..] else []
      else Replaying(st, c)
  {
    hide OldPrefix, Due, Append, Distinct;
  }

  lemma NextPushing(cfg: Config, st: State, e: Event, c: Client)
    requires Enabled(st, e)
    ensures Pushing(Next(cfg, st, e), c) ==
      if e.NextClient? then Started(cfg, st, e, c)
      else if e.SendPush? then
        if Pushing(st, c) != [] && e.outcome == Through && c in st.active then Pushing(st, c)[1..] else []
      else if e.StartPush? && e.todo != [] then []
      else Pushing(st, c)
  {
    hide OldPrefix, Due, Append, Distinct;
  }

  /** The event sends the client the next message of its replay, or of its turn. */
  predicate Replays(e: Event, c: Client) { e.SendReplay? && e.client == c && e.outcome != Lost }

  predicate Pushes(st: State, e: Event, c: Client) { e.SendPush? && e.outcome != Lost && Pushing(st, c) != [] }

  /** The client's message, if the event sends it one: the head of one of its two lists. */
  lemma MadeFor(st: State, e: Event, c: Client)
    requires Enabled(st, e) && IsClientPublic(st, c)
    ensures (Made(st, e).Some? && Made(st, e).value.client == c) <==> Replays(e, c) || Pushes(st, e, c)
    ensures Replays(e, c) ==> Replaying(st, c) != [] && Made(st, e).value.msg == Replaying(st, c)[0]
    ensures Pushes(st, e, c) ==> Made(st, e).value.msg == Pushing(st, c)[0]
  {
    hide Distinct;
  }

  // ---------- clean runs are in order ----------

  /** At most one list is under way, in order and behind everything received. */
  ghost predicate FlightOk(st: State, c: Client) {
    && InOrder(Received(st, c))
    && InOrder(Replaying(st, c)) && Behind(Received(st, c), Replaying(st, c))
    && InOrder(Pushing(st, c)) && Behind(Received(st, c), Pushing(st, c))
    && (Replaying(st, c) == [] || Pushing(st, c) == [])
  }

  lemma SendHead(s: seq<Message>, t: seq<Message>)
    requires InOrder(s) && InOrder(t) && t != [] && Behind(s, t)
    ensures InOrder(s + [t[0]]) && InOrder(t[1..]) && Behind(s + [t[0]], t[1..])
  {
  }

  lemma SortedInOrder(s: seq<Message>)
    requires Sorted(s)
    ensures InOrder(s)
  {
  }

  lemma StartedInOrder(cfg: Config, st: State, e: Event, c: Client)
    requires BufferOk(cfg, st) && Enabled(st, e)
    ensures InOrder(Started(cfg, st, e, c))
  {
    if e.StartReplay? {
      OldPrefixSorted(st.buf, st.clock - cfg.delay);
    } else if e.NextClient? && st.push.todo != [] && st.push.todo[0] == c {
      DueSorted(st.buf, st.infos[c].lastSent, st.push.cutoff);
    }
    SortedInOrder(Started(cfg, st, e, c));
  }

  /** Before a turn or a round begins, nothing is being pushed. */
  lemma IdlePush(st: State, e: Event, c: Client)
    requires RoundOk(st) && Enabled(st, e) && (e.NextClient? || e.StartPush?)
    ensures Pushing(st, c) == []
  {
    hide Distinct;
  }

  lemma FlightNext(cfg: Config, st: State, e: Event, c: Client)
    requires BufferOk(cfg, st) && RoundOk(st) && Enabled(st, e)
    requires IsClientPublic(st, c) && FlightOk(st, c) && Clean(cfg, st, e, c)
    ensures FlightOk(Next(cfg, st, e), c)
  {
    hide Next, Enabled, BufferOk, RoundOk, Made, Started, Replaying, Pushing, Received, InOrder, Behind;
    NextReceived(cfg, st, e, c);
    NextReplaying(cfg, st, e, c);
    NextPushing(cfg, st, e, c);
    MadeFor(st, e, c);
    StartedInOrder(cfg, st, e, c);
    NothingInOrder(Received(st, c));
    if e.NextClient? || e.StartPush? { IdlePush(st, e, c); }
    if Replays(e, c) {
      SendHead(Received(st, c), Replaying(st, c));
      NothingInOrder(Received(st, c) + [Replaying(st, c)[0]]);
    } else if Pushes(st, e, c) {
      SendHead(Received(st, c), Pushing(st, c));
      NothingInOrder(Received(st, c) + [Pushing(st, c)[0]]);
    } else {
      assert Received(st, c) + [] == Received(st, c);
    }
  }

  lemma NothingInOrder(s: seq<Message>)
    ensures InOrder([]) && Behind(s, [])
  {
  }

  /** A client that is not known yet has received nothing and waits for nothing. */
  lemma UnknownFlight(cfg: Config, st: State, c: Client)
    requires ReplaysPublic(st) && RoundOk(st) && SentOk(cfg, st) && c !in st.infos
    ensures Received(st, c) == [] && Replaying(st, c) == [] && Pushing(st, c) == []
  {
    hide Distinct;
    forall i | 0 <= i < |st.sent| ensures st.sent[i].client != c {
      assert DelayOk(cfg, st, st.sent[i]);
    }
    NothingSent(st.sent, c);
  }

  lemma {:induction false} NothingSent(sent: seq<Delivery>, c: Client)
    requires forall i | 0 <= i < |sent| :: sent[i].client != c
    ensures SentTo(sent, c) == []
  {
    if sent != [] { NothingSent(sent[..|sent| - 1], c); }
  }

  /** A run in which every list for the client is started cleanly. */
  ghost predicate CleanRun(cfg: Config, es: seq<Event>, c: Client)
    requires After(cfg, es).Some?
  {
    es == [] ||
    (var front, e := es[..|es| - 1], es[|es| - 1];
     CleanRun(cfg, front, c) && Clean(cfg, After(cfg, front).value, e, c))
  }

  /** The client's registration leaves it with three empty lists. */
  lemma NewFlight(cfg: Config, st: State, e: Event, c: Client)
    requires Invariant(cfg, st) && Enabled(st, e) && c !in st.infos && IsClientPublic(Next(cfg, st, e), c)
    ensures var r := Next(cfg, st, e); Received(r, c) == [] && Replaying(r, c) == [] && Pushing(r, c) == []
    ensures e.Register? && e.client == c && Next(cfg, st, e).infos[c].lastSent == 0
  {
    UnknownFlight(cfg, st, c);
    OnlyRegister(cfg, st, e, c);
    NextReceived(cfg, st, e, c);
    NextReplaying(cfg, st, e, c);
    NextPushing(cfg, st, e, c);
    hide Received, Replaying, Pushing, Invariant, Started;
  }

  lemma OnlyRegister(cfg: Config, st: State, e: Event, c: Client)
    requires Enabled(st, e) && c !in st.infos && c in Next(cfg, st, e).infos
    ensures e.Register? && e.client == c && Next(cfg, st, e).infos[c] == ClientInfo(e.tier, 0)
  {
    hide OldPrefix, Due, Append, Distinct;
  }

  /** In a clean run the client receives messages in broadcast order and none twice. */
  lemma {:induction false} CleanInOrder(cfg: Config, es: seq<Event>, c: Client)
    requires After(cfg, es).Some? && CleanRun(cfg, es, c) && IsClientPublic(After(cfg, es).value, c)
    ensures FlightOk(After(cfg, es).value, c)
  {
    hide Enabled, Next, Shaped, BufferOk, Delayed, FlightOk, Clean, Invariant;
    if es == [] {
      NothingYet(c);
    } else {
      var front, e := es[..|es| - 1], es[|es| - 1];
      var st := After(cfg, front).value;
      PublicDelay(cfg, front);
      if c in st.infos {
        PublicBefore(cfg, st, e, c);
        CleanInOrder(cfg, front, c);
        InvariantParts(cfg, st);
        FlightNext(cfg, st, e, c);
      } else {
        NewFlight(cfg, st, e, c);
        EmptyFlight(Next(cfg, st, e), c);
      }
    }
  }

  lemma NothingYet(c: Client)
    ensures !IsClientPublic(Start(), c)
  {
  }

  lemma PublicBefore(cfg: Config, st: State, e: Event, c: Client)
    requires Enabled(st, e) && c in st.infos && IsClientPublic(Next(cfg, st, e), c)
    ensures IsClientPublic(st, c)
  {
    NextGrown(cfg, st, e);
    hide Next, Enabled;
  }

  lemma InvariantParts(cfg: Config, st: State)
    requires Invariant(cfg, st)
    ensures BufferOk(cfg, st) && RoundOk(st) && ReplaysPublic(st)
  {
  }

  lemma EmptyFlight(st: State, c: Client)
    requires Received(st, c) == [] && Replaying(st, c) == [] && Pushing(st, c) == []
    ensures FlightOk(st, c)
  {
  }

  // ---------- and only clean events are safe ----------

  /** A continuation that starts no further list for the client. */
  ghost predicate Undisturbed(cfg: Config, es: seq<Event>, tail: seq<Event>, c: Client)
    decreases |tail|
  {
    if tail == [] then After(cfg, es).Some?
    else
      var front, e := tail[..|tail| - 1], tail[|tail| - 1];
      && Undisturbed(cfg, es, front, c)
      && After(cfg, es + front).Some? && Enabled(After(cfg, es + front).value, e)
      && Started(cfg, After(cfg, es + front).value, e, c) == []
  }

  lemma {:induction false} UndisturbedClean(cfg: Config, es: seq<Event>, tail: seq<Event>, c: Client)
    requires After(cfg, es).Some? && CleanRun(cfg, es, c) && Undisturbed(cfg, es, tail, c)
    ensures After(cfg, es + tail).Some? && CleanRun(cfg, es + tail, c)
    decreases |tail|
  {
    hide Started, Enabled, Next;
    if tail == [] {
      assert es + tail == es;
    } else {
      var front, e := tail[..|tail| - 1], tail[|tail| - 1];
      UndisturbedClean(cfg, es, front, c);
      assert es + tail == (es + front) + [e];
      ExtendClean(cfg, es + front, e, c);
    }
  }

  lemma ExtendClean(cfg: Config, es: seq<Event>, e: Event, c: Client)
    requires After(cfg, es).Some? && CleanRun(cfg, es, c)
    requires Enabled(After(cfg, es).value, e) && Clean(cfg, After(cfg, es).value, e, c)
    ensures After(cfg, es + [e]) == Some(Next(cfg, After(cfg, es).value, e)) && CleanRun(cfg, es + [e], c)
  {
    hide Enabled, Next, Clean;
    assert (es + [e])[..|es + [e]| - 1] == es;
  }

  lemma UndisturbedExtend(cfg: Config, es: seq<Event>, tail: seq<Event>, e: Event, c: Client)
    requires Undisturbed(cfg, es, tail, c) && After(cfg, es + tail).Some?
    requires Enabled(After(cfg, es + tail).value, e) && Started(cfg, After(cfg, es + tail).value, e, c) == []
    ensures Undisturbed(cfg, es, tail + [e], c)
    ensures After(cfg, es + (tail + [e])) == Some(Next(cfg, After(cfg, es + tail).value, e))
  {
    hide Enabled, Next, Started;
    assert (tail + [e])[..|tail + [e]| - 1] == tail;
    assert es + (tail + [e]) == (es + tail) + [e];
    AfterExtend(cfg, es + tail, e, After(cfg, es + tail).value);
  }

  /** The next message of the replay can go out. */
  lemma SendsReplay(cfg: Config, es: seq<Event>, tail: seq<Event>, c: Client)
    requires Undisturbed(cfg, es, tail, c) && After(cfg, es + tail).Some?
    requires IsClientPublic(After(cfg, es + tail).value, c) && Replaying(After(cfg, es + tail).value, c) != []
    ensures var more, st := tail + [SendReplay(c, Through)], After(cfg, es + tail).value;
      && Undisturbed(cfg, es, more, c) && After(cfg, es + more).Some?
      && Received(After(cfg, es + more).value, c) == Received(st, c) + [Replaying(st, c)[0]]
      && Pushing(After(cfg, es + more).value, c) == Pushing(st, c)
      && IsClientPublic(After(cfg, es + more).value, c)
  {
    var st, e := After(cfg, es + tail).value, SendReplay(c, Through);
    assert Enabled(st, e);
    hide Enabled, Next, Undisturbed, After;
    UndisturbedExtend(cfg, es, tail, e, c);
    MadeFor(st, e, c);
    NextReceived(cfg, st, e, c);
    NextPushing(cfg, st, e, c);
    NextGrown(cfg, st, e);
    hide Received, Pushing, Made;
  }

  /** The next message of the push round can go out. */
  lemma SendsPush(cfg: Config, es: seq<Event>, tail: seq<Event>, c: Client)
    requires Undisturbed(cfg, es, tail, c) && After(cfg, es + tail).Some?
    requires IsClientPublic(After(cfg, es + tail).value, c) && Pushing(After(cfg, es + tail).value, c) != []
    ensures var more, st := tail + [SendPush(Through)], After(cfg, es + tail).value;
      && Undisturbed(cfg, es, more, c) && After(cfg, es + more).Some?
      && Received(After(cfg, es + more).value, c) == Received(st, c) + [Pushing(st, c)[0]]
      && Replaying(After(cfg, es + more).value, c) == Replaying(st, c)
      && IsClientPublic(After(cfg, es + more).value, c)
  {
    var st, e := After(cfg, es + tail).value, SendPush(Through);
    assert Enabled(st, e);
    hide Enabled, Next, Undisturbed, After;
    UndisturbedExtend(cfg, es, tail, e, c);
    MadeFor(st, e, c);
    NextReceived(cfg, st, e, c);
    NextReplaying(cfg, st, e, c);
    NextGrown(cfg, st, e);
    hide Received, Replaying, Made;
  }

  lemma OutOfOrder(s: seq<Message>, m: Message)
    requires s != [] && s[|s| - 1].id >= m.id
    ensures !InOrder(s + [m])
  {
    var t := s + [m];
    assert t[|s| - 1].id >= t[|s|].id;
  }

  ghost predicate Disordered(cfg: Config, es: seq<Event>, tail: seq<Event>, c: Client) {
    && Undisturbed(cfg, es, tail, c) && After(cfg, es + tail).Some?
    && !InOrder(Received(After(cfg, es + tail).value, c))
  }

  /** Two lists under way: sending the later head first, then the other one, breaks the order. */
  lemma TwoListsBreak(cfg: Config, es: seq<Event>, c: Client) returns (tail: seq<Event>)
    requires After(cfg, es).Some? && IsClientPublic(After(cfg, es).value, c)
    requires Replaying(After(cfg, es).value, c) != [] && Pushing(After(cfg, es).value, c) != []
    ensures Disordered(cfg, es, tail, c)
  {
    var st := After(cfg, es).value;
    assert es + [] == es;
    assert Undisturbed(cfg, es, [], c);
    hide Undisturbed, After, Replaying, Pushing, InOrder;
    var r, p := Replaying(st, c)[0], Pushing(st, c)[0];
    if r.id >= p.id {
      SendsReplay(cfg, es, [], c);
      tail := [] + [SendReplay(c, Through)];
      SendsPush(cfg, es, tail, c);
      OutOfOrder(Received(st, c) + [r], p);
      tail := tail + [SendPush(Through)];
    } else {
      SendsPush(cfg, es, [], c);
      tail := [] + [SendPush(Through)];
      SendsReplay(cfg, es, tail, c);
      OutOfOrder(Received(st, c) + [p], r);
      tail := tail + [SendReplay(c, Through)];
    }
  }

  /** A list that starts at or before the last message received: sending its head breaks the order. */
  lemma StaleListBreaks(cfg: Config, es: seq<Event>, c: Client) returns (tail: seq<Event>)
    requires After(cfg, es).Some? && IsClientPublic(After(cfg, es).value, c)
    requires var st := After(cfg, es).value;
      !Behind(Received(st, c), Replaying(st, c)) || !Behind(Received(st, c), Pushing(st, c))
    ensures Disordered(cfg, es, tail, c)
  {
    var st := After(cfg, es).value;
    assert es + [] == es;
    assert Undisturbed(cfg, es, [], c);
    hide Undisturbed, After, Replaying, Pushing, InOrder;
    if !Behind(Received(st, c), Replaying(st, c)) {
      SendsReplay(cfg, es, [], c);
      OutOfOrder(Received(st, c), Replaying(st, c)[0]);
      tail := [] + [SendReplay(c, Through)];
    } else {
      SendsPush(cfg, es, [], c);
      OutOfOrder(Received(st, c), Pushing(st, c)[0]);
      tail := [] + [SendPush(Through)];
    }
  }

  /** After an event that is not clean there are two lists under way, or one that starts too early. */
  lemma UncleanLists(cfg: Config, st: State, e: Event, c: Client)
    requires RoundOk(st) && Enabled(st, e) && IsClientPublic(st, c) && !Clean(cfg, st, e, c)
    ensures var r := Next(cfg, st, e);
      || (Replaying(r, c) != [] && Pushing(r, c) != [])
      || !Behind(Received(r, c), Replaying(r, c)) || !Behind(Received(r, c), Pushing(r, c))
  {
    assert e == StartReplay(c) || e.NextClient?;
    NextReceived(cfg, st, e, c);
    NextReplaying(cfg, st, e, c);
    NextPushing(cfg, st, e, c);
    MadeFor(st, e, c);
    assert Received(st, c) + [] == Received(st, c);
    hide Next, Enabled, RoundOk, Made, Started, Replaying, Pushing, Received;
  }

  lemma UncleanBreaks(cfg: Config, es: seq<Event>, e: Event, c: Client) returns (tail: seq<Event>)
    requires After(cfg, es).Some? && IsClientPublic(After(cfg, es).value, c)
    requires Enabled(After(cfg, es).value, e) && !Clean(cfg, After(cfg, es).value, e, c)
    ensures After(cfg, es + [e]).Some? && Disordered(cfg, es + [e], tail, c)
  {
    var st := After(cfg, es).value;
    hide After, Enabled, Next, Clean, Disordered, Replaying, Pushing, Behind, Received;
    AfterExtend(cfg, es, e, st);
    PublicDelay(cfg, es);
    InvariantParts(cfg, st);
    UncleanLists(cfg, st, e, c);
    NextGrown(cfg, st, e);
    var r := Next(cfg, st, e);
    if Replaying(r, c) != [] && Pushing(r, c) != [] {
      tail := TwoListsBreak(cfg, es + [e], c);
    } else {
      tail := StaleListBreaks(cfg, es + [e], c);
    }
  }

  /**
   * An event that starts a list for a public client is clean exactly when every continuation that starts no further
   * list for it keeps the client's messages in broadcast order without repeats.
   */
  lemma CleanExactly(cfg: Config, es: seq<Event>, e: Event, c: Client)
    requires After(cfg, es).Some? && IsClientPublic(After(cfg, es).value, c) && CleanRun(cfg, es, c)
    requires Enabled(After(cfg, es).value, e)
    ensures Clean(cfg, After(cfg, es).value, e, c) <==> !exists tail :: Disordered(cfg, es + [e], tail, c)
  {
    var st := After(cfg, es).value;
    if Clean(cfg, st, e, c) {
      ExtendClean(cfg, es, e, c);
      PublicStays(cfg, es, [e], c);
      forall tail | Undisturbed(cfg, es + [e], tail, c) ensures !Disordered(cfg, es + [e], tail, c) {
        UndisturbedClean(cfg, es + [e], tail, c);
        PublicStays(cfg, es + [e], tail, c);
        CleanInOrder(cfg, es + [e] + tail, c);
        hide After, CleanRun, Clean, Enabled;
      }
    } else {
      var tail := UncleanBreaks(cfg, es, e, c);
    }
  }

  lemma {:induction false} PublicStays(cfg: Config, es: seq<Event>, tail: seq<Event>, c: Client)
    requires After(cfg, es).Some? && IsClientPublic(After(cfg, es).value, c) && After(cfg, es + tail).Some?
    ensures IsClientPublic(After(cfg, es + tail).value, c)
    decreases |tail|
  {
    hide Enabled, Next;
    if tail == [] {
      assert es + tail == es;
    } else {
      var front, e := tail[..|tail| - 1], tail[|tail| - 1];
      assert (es + tail)[..|es + tail| - 1] == es + front;
      PublicStays(cfg, es, front, c);
      NextGrown(cfg, After(cfg, es + front).value, e);
    }
  }
}
