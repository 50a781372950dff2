/** Two explicit runs of wss_distributor.py that show the limits of the delivery results. */
module DeliveryRuns {
  import opened DeliveryOrder
  import opened Distributor
  import opened Optional
  import opened RegularDelivery

  // ---------- building a run step by step ----------

  lemma DoTick(cfg: Config, es: seq<Event>, st: State, d: nat)
    requires After(cfg, es) == Some(st)
    ensures After(cfg, es + [Tick(d)]) == Some(st.(clock := st.clock + d))
  {
    AfterExtend(cfg, es, Tick(d), st);
  }

  lemma DoBroadcast(cfg: Config, es: seq<Event>, st: State)
    requires After(cfg, es) == Some(st) && |st.buf| < cfg.maxlen
    ensures var m := Message(st.clock, st.count);
      After(cfg, es + [Broadcast]) == Some(st.(count := st.count + 1, buf := st.buf + [m]))
  {
    AfterExtend(cfg, es, Broadcast, st);
  }

  lemma DoRegister(cfg: Config, es: seq<Event>, st: State, c: Client)
    requires After(cfg, es) == Some(st) && c !in st.infos
    ensures After(cfg, es + [Register(c, Public)])
         == Some(st.(infos := st.infos[c := ClientInfo(Public, 0)], active := st.active + {c}))
  {
    AfterExtend(cfg, es, Register(c, Public), st);
  }

  lemma DoStartReplay(cfg: Config, es: seq<Event>, st: State, c: Client)
    requires After(cfg, es) == Some(st) && IsClientPublic(st, c)
    ensures After(cfg, es + [StartReplay(c)])
         == Some(st.(replays := st.replays[c := OldPrefix(st.buf, st.clock - cfg.delay)]))
  {
    AfterExtend(cfg, es, StartReplay(c), st);
  }

  lemma DoStartPush(cfg: Config, es: seq<Event>, st: State, c: Client)
    requires After(cfg, es) == Some(st) && st.push == Asleep && c in st.active && IsClientPublic(st, c)
    ensures After(cfg, es + [StartPush([c])]) == Some(st.(push := Round(st.clock - cfg.delay, [c], None, [], {})))
  {
    AfterExtend(cfg, es, StartPush([c]), st);
  }

  lemma DoNextClient(cfg: Config, es: seq<Event>, st: State)
    requires After(cfg, es) == Some(st) && Enabled(st, NextClient)
    ensures After(cfg, es + [NextClient]) == Some(Serve(st))
  {
    AfterExtend(cfg, es, NextClient, st);
  }

  lemma DoSendPush(cfg: Config, es: seq<Event>, st: State)
    requires After(cfg, es) == Some(st) && Enabled(st, SendPush(Through))
    ensures After(cfg, es + [SendPush(Through)]) == Some(PushOne(st, Through))
  {
    AfterExtend(cfg, es, SendPush(Through), st);
  }

  // ---------- replay and push can both send one message ----------

  /** An old message, one public client, its replay started and a round about to take it. */
  function BothStarted(cfg: Config): State {
    State(1 + cfg.delay, 1, [Message(1, 0)], map[0 := ClientInfo(Public, 0)], {0}, map[0 := [Message(1, 0)]],
          Round(1, [0], None, [], {}), [])
  }

  lemma OneOld(m: Message, last: int, cutoff: int)
    requires m.ts <= cutoff
    ensures OldPrefix([m], cutoff) == [m]
    ensures Due([m], last, cutoff) == if last < m.ts then [m] else []
  {
    assert [m][1..] == [];
  }

  lemma BothStartedReachable(cfg: Config) returns (es: seq<Event>)
    requires cfg.delay >= 0 && cfg.maxlen > 0
    ensures After(cfg, es) == Some(BothStarted(cfg))
  {
    hide After, OldPrefix;
    var m, info := Message(1, 0), ClientInfo(Public, 0);
    assert After(cfg, []) == Some(Start()) by { EmptyRun(cfg); }
    DoTick(cfg, [], Start(), 1);
    es := [] + [Tick(1)];
    var s1 := Start().(clock := 1);
    DoBroadcast(cfg, es, s1);
    es := es + [Broadcast];
    var s2 := s1.(count := 1, buf := [m]);
    assert [] + [m] == [m];
    DoTick(cfg, es, s2, cfg.delay);
    es := es + [Tick(cfg.delay)];
    var s3 := s2.(clock := 1 + cfg.delay);
    DoRegister(cfg, es, s3, 0);
    es := es + [Register(0, Public)];
    var s4 := s3.(infos := s3.infos[0 := info], active := s3.active + {0});
    DoStartReplay(cfg, es, s4, 0);
    es := es + [StartReplay(0)];
    OneOld(m, 0, 1);
    var s5 := s4.(replays := s4.replays[0 := [m]]);
    DoStartPush(cfg, es, s5, 0);
    es := es + [StartPush([0])];
    assert s5.infos == map[0 := info] && s5.active == {0} && s5.replays == map[0 := [m]];
  }

  lemma EmptyRun(cfg: Config)
    ensures After(cfg, []) == Some(Start())
  {
  }

  /** The round takes the client although its replay still has the message to send. */
  lemma BothListed(cfg: Config)
    requires cfg.delay >= 0
    ensures Enabled(BothStarted(cfg), NextClient) && !Clean(cfg, BothStarted(cfg), NextClient, 0)
    ensures var next := Serve(BothStarted(cfg));
      Replaying(next, 0) == [Message(1, 0)] && Pushing(next, 0) == [Message(1, 0)] && Received(next, 0) == []
      && IsClientPublic(next, 0)
  {
    OneOld(Message(1, 0), 0, 1);
    hide Due, OldPrefix;
  }

  /**
   * A reachable state in which the round takes a client whose replay has not ended, and then sends it the message
   * that the replay sends too.
   */
  lemma ReplayCanDuplicate(cfg: Config) returns (es: seq<Event>, tail: seq<Event>)
    requires cfg.delay >= 0 && cfg.maxlen > 0
    ensures After(cfg, es) == Some(BothStarted(cfg)) && Enabled(BothStarted(cfg), NextClient)
    ensures !Clean(cfg, BothStarted(cfg), NextClient, 0)
    ensures After(cfg, es + [NextClient] + tail).Some?
    ensures Received(After(cfg, es + [NextClient] + tail).value, 0) == [Message(1, 0), Message(1, 0)]
  {
    es := BothStartedReachable(cfg);
    BothListed(cfg);
    hide After, Undisturbed, Next, Received, Replaying, Pushing, BothStarted, Serve, Enabled, Clean;
    DoNextClient(cfg, es, BothStarted(cfg));
    tail := BothSend(cfg, es + [NextClient], Serve(BothStarted(cfg)), Message(1, 0));
  }

  lemma BothSend(cfg: Config, run: seq<Event>, st: State, m: Message) returns (tail: seq<Event>)
    requires After(cfg, run) == Some(st) && IsClientPublic(st, 0)
    requires Replaying(st, 0) == [m] && Pushing(st, 0) == [m] && Received(st, 0) == []
    ensures After(cfg, run + tail).Some? && Received(After(cfg, run + tail).value, 0) == [m, m]
  {
    assert run + [] == run;
    assert Undisturbed(cfg, run, [], 0);
    hide After, Undisturbed, Received, Replaying, Pushing;
    SendsReplay(cfg, run, [], 0);
    tail := [] + [SendReplay(0, Through)];
    SendsPush(cfg, run, tail, 0);
    tail := tail + [SendPush(Through)];
  }

  // ---------- without a delay a message can be skipped ----------

  /** One client, its first message received, the round over. */
  function FirstReceived(): State {
    var first := Message(1, 0);
    State(1, 1, [first], map[0 := ClientInfo(Public, 1)], {0}, map[], Asleep, [Delivery(0, first, 1, false)])
  }

  predicate Faultless(e: Event) {
    !e.StartReplay? && !e.SendReplay? && !e.Disconnect? && (e.SendPush? ==> e.outcome == Through)
  }

  /** One client, one message, and a round about to take the client. */
  function FirstRound(): State {
    State(1, 1, [Message(1, 0)], map[0 := ClientInfo(Public, 0)], {0}, map[], Round(1, [0], None, [], {}), [])
  }

  lemma FirstRoundReachable(cfg: Config) returns (es: seq<Event>)
    requires cfg.delay == 0 && cfg.maxlen > 0
    ensures After(cfg, es) == Some(FirstRound())
    ensures forall i | 0 <= i < |es| :: Faultless(es[i])
  {
    hide After;
    var m, info := Message(1, 0), ClientInfo(Public, 0);
    assert After(cfg, []) == Some(Start()) by { EmptyRun(cfg); }
    DoTick(cfg, [], Start(), 1);
    es := [] + [Tick(1)];
    var s1 := Start().(clock := 1);
    DoRegister(cfg, es, s1, 0);
    es := es + [Register(0, Public)];
    var s2 := s1.(infos := s1.infos[0 := info], active := s1.active + {0});
    DoBroadcast(cfg, es, s2);
    es := es + [Broadcast];
    var s3 := s2.(count := 1, buf := [m]);
    assert [] + [m] == [m];
    DoStartPush(cfg, es, s3, 0);
    es := es + [StartPush([0])];
    assert s3.infos == map[0 := info] && s3.active == {0};
  }

  lemma FirstReceivedReachable(cfg: Config) returns (es: seq<Event>)
    requires cfg.delay == 0 && cfg.maxlen > 0
    ensures After(cfg, es) == Some(FirstReceived())
    ensures forall i | 0 <= i < |es| :: Faultless(es[i])
  {
    hide After, Due;
    var m, info, marked := Message(1, 0), ClientInfo(Public, 0), ClientInfo(Public, 1);
    es := FirstRoundReachable(cfg);
    OneOld(m, 0, 1);
    es := OneTurn(cfg, es, FirstRound(), m);
    assert map[0 := info][0 := marked] == map[0 := marked];
    assert [] + [Delivery(0, m, 1, false)] == [Delivery(0, m, 1, false)];
  }

  /** A round with one client and one message due. */
  lemma OneTurn(cfg: Config, es: seq<Event>, st: State, m: Message) returns (more: seq<Event>)
    requires After(cfg, es) == Some(st) && IsClientPublic(st, 0) && 0 in st.active
    requires st.push.Round? && st.push.todo == [0] && st.push.current == None
    requires st.push.pending == [] && st.push.dead == {}
    requires Due(st.buf, st.infos[0].lastSent, st.push.cutoff) == [m]
    ensures more == es + [NextClient] + [SendPush(Through)] + [SendPush(Through)] + [NextClient]
    ensures After(cfg, more) == Some(Deliver(st, 0, m, false).(push := Asleep))
  {
    hide After, Due;
    var cutoff := st.push.cutoff;
    assert [0][1..] == [] && [m][1..] == [];
    DoNextClient(cfg, es, st);
    more := es + [NextClient];
    var s1 := st.(push := Round(cutoff, [], Some(0), [m], {}));
    DoSendPush(cfg, more, s1);
    more := more + [SendPush(Through)];
    var s2 := Deliver(s1, 0, m, false).(push := Round(cutoff, [], Some(0), [], {}));
    DoSendPush(cfg, more, s2);
    more := more + [SendPush(Through)];
    var s3 := s2.(push := Round(cutoff, [], None, [], {}));
    DoNextClient(cfg, more, s3);
    more := more + [NextClient];
    var nobody: set<Client> := {};
    assert s3.active - nobody == s3.active;
  }

  /** Two more broadcasts, the first of them in the same instant, and time for another round. */
  function TwoMore(): State {
    FirstReceived().(clock := 2, count := 3, buf := [Message(1, 0), Message(1, 1), Message(2, 2)])
  }

  lemma TwoMoreReachable(cfg: Config) returns (es: seq<Event>)
    requires cfg.delay == 0 && cfg.maxlen >= 3
    ensures After(cfg, es) == Some(TwoMore())
    ensures forall i | 0 <= i < |es| :: Faultless(es[i])
  {
    es := FirstReceivedReachable(cfg);
    hide After;
    var a, b, d, s0 := Message(1, 0), Message(1, 1), Message(2, 2), FirstReceived();
    DoBroadcast(cfg, es, s0);
    es := es + [Broadcast];
    var s1 := s0.(count := 2, buf := [a, b]);
    assert [a] + [b] == [a, b];
    DoTick(cfg, es, s1, 1);
    es := es + [Tick(1)];
    var s2 := s1.(clock := 2);
    DoBroadcast(cfg, es, s2);
    es := es + [Broadcast];
    assert [a, b] + [d] == [a, b, d];
  }

  /**
   * With delay 0 the order result stands but messages can be skipped: one broadcast in the instant of the last one
   * received does not lie past the marker.
   */
  lemma ZeroDelaySkips(cfg: Config) returns (es: seq<Event>)
    requires cfg.delay == 0 && cfg.maxlen >= 3
    ensures After(cfg, es).Some? && RegularRun(cfg, es, 0) && ResumableRun(cfg, es, 0)
    ensures var st := After(cfg, es).value;
      && IsClientPublic(st, 0) && Message(1, 1) in st.buf
      && Received(st, 0) == [Message(1, 0), Message(2, 2)]
  {
    hide After, Due, RegularRun, ResumableRun, SentTo;
    var a, b, d, st := Message(1, 0), Message(1, 1), Message(2, 2), TwoMore();
    es := TwoMoreReachable(cfg);
    DoStartPush(cfg, es, st, 0);
    es := es + [StartPush([0])];
    DueLast([a, b], d, 1, 2);
    assert [a, b] + [d] == [a, b, d];
    es := OneTurn(cfg, es, st.(push := Round(2, [0], None, [], {})), d);
    FirstTwo(st.sent, a, d);
    Unfailing(cfg, es);
    assert st.buf[1] == b;
  }

  lemma DueLast(past: seq<Message>, m: Message, last: int, cutoff: int)
    requires last < m.ts <= cutoff && |past| == 2 && past[0].ts <= last && past[1].ts <= last
    ensures Due(past + [m], last, cutoff) == [m]
  {
    var s := past + [m];
    assert s[1..] == [past[1]] + [m] && s[1..][1..] == [m] && [m][1..] == [];
    assert Due([m], last, cutoff) == [m];
    assert Due(s[1..], last, cutoff) == Due([m], last, cutoff);
  }

  lemma FirstTwo(sent: seq<Delivery>, a: Message, d: Message)
    requires sent == [Delivery(0, a, 1, false)]
    ensures SentTo(sent + [Delivery(0, d, 2, false)], 0) == [a, d]
  {
    SentToExtend(sent, Delivery(0, d, 2, false), 0);
    SentToExtend([], Delivery(0, a, 1, false), 0);
    assert [] + sent == sent;
  }

  lemma Unfailing(cfg: Config, es: seq<Event>)
    requires After(cfg, es).Some?
    requires forall i | 0 <= i < |es| :: Faultless(es[i])
    ensures RegularRun(cfg, es, 0) && ResumableRun(cfg, es, 0)
  {
    UnreplayedRegular(cfg, es, 0);
    FaultlessResumable(cfg, es, 0);
  }
}
