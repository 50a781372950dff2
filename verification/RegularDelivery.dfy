/** Clients of wss_distributor.py whose replay and push turns do not overlap: their order, and nothing is skipped. */
module RegularDelivery {
  import opened DeliveryOrder
  import opened Distributor
  import opened Optional

  // ---------- regular runs are clean ----------

  /**
   * The replay starts before anything was sent and while nothing is being pushed, the push round takes the client
   * only after its replay has ended, the replay sends only while the client is registered, and no replay send raises
   * after the message went out.
   */
  ghost predicate Regular(st: State, e: Event, c: Client)
    requires Enabled(st, e)
  {
    && (e == StartReplay(c) ==> Received(st, c) == [] && Pushing(st, c) == [])
    && (e.NextClient? && st.push.todo != [] && st.push.todo[0] == c ==> Replaying(st, c) == [])
    && (e == SendReplay(c, Through) ==> c in st.active)
    && e != SendReplay(c, Late)
  }

  ghost predicate RegularRun(cfg: Config, es: seq<Event>, c: Client)
    requires After(cfg, es).Some?
  {
    es == [] ||
    (var front, e := es[..|es| - 1], es[|es| - 1];
     RegularRun(cfg, front, c) && Regular(After(cfg, front).value, e, c))
  }

  /** Every message of s that is younger than m was broadcast after m. */
  ghost predicate Follows(m: Message, s: seq<Message>) {
    forall i | 0 <= i < |s| :: s[i].ts > m.ts ==> s[i].id > m.id
  }

  ghost predicate Known(st: State, m: Message) { m.id < st.count && Follows(m, st.buf) }

  ghost predicate AllKnown(st: State, s: seq<Message>) { forall i | 0 <= i < |s| :: Known(st, s[i]) }

  /** The client is being served now, or may still be served. */
  ghost predicate MayBeServed(st: State, c: Client) {
    || (c in st.active && !(st.push.Round? && c in st.push.dead))
    || (st.push.Round? && (st.push.current == Some(c) || c in st.push.todo))
  }

  /** The marker is the time of the last message received, 0 before the first. */
  ghost predicate Marked(st: State, c: Client) {
    c in st.infos && MayBeServed(st, c) ==>
      st.infos[c].lastSent == if Received(st, c) == [] then 0 else Received(st, c)[|Received(st, c)| - 1].ts
  }

  ghost predicate ListsKnown(st: State, c: Client) {
    AllKnown(st, Received(st, c)) && AllKnown(st, Replaying(st, c)) && AllKnown(st, Pushing(st, c))
  }

  lemma KnownStays(cfg: Config, st: State, e: Event, m: Message)
    requires Enabled(st, e) && Known(st, m)
    ensures Known(Next(cfg, st, e), m)
  {
    hide OldPrefix, Due, Distinct;
  }

  lemma AllKnownStays(cfg: Config, st: State, e: Event, s: seq<Message>)
    requires Enabled(st, e) && AllKnown(st, s)
    ensures AllKnown(Next(cfg, st, e), s)
  {
    hide Known, Next, Enabled;
    forall i | 0 <= i < |s| ensures Known(Next(cfg, st, e), s[i]) {
      KnownStays(cfg, st, e, s[i]);
    }
  }

  lemma SortedFollows(buf: seq<Message>, m: Message)
    requires Sorted(buf) && m in buf
    ensures Follows(m, buf)
  {
  }

  lemma StartedKnown(cfg: Config, st: State, e: Event, c: Client)
    requires BufferOk(cfg, st) && Enabled(st, e)
    ensures AllKnown(st, Started(cfg, st, e, c))
  {
    OldPrefixExact(st.buf, st.clock - cfg.delay);
    if e.NextClient? && st.push.todo != [] { DueExact(st.buf, st.infos[st.push.todo[0]].lastSent, st.push.cutoff); }
    var s := Started(cfg, st, e, c);
    hide OldPrefix, Due, Distinct;
    forall i | 0 <= i < |s| ensures Known(st, s[i]) {
      assert s[i] in s && s[i] in st.buf;
      SortedFollows(st.buf, s[i]);
    }
  }

  lemma ListsKnownNext(cfg: Config, st: State, e: Event, c: Client)
    requires BufferOk(cfg, st) && Enabled(st, e) && IsClientPublic(st, c) && ListsKnown(st, c)
    ensures ListsKnown(Next(cfg, st, e), c)
  {
    hide Next, Enabled, BufferOk, Made, Started, Replaying, Pushing, Received, Known;
    NextReceived(cfg, st, e, c);
    NextReplaying(cfg, st, e, c);
    NextPushing(cfg, st, e, c);
    MadeFor(st, e, c);
    StartedKnown(cfg, st, e, c);
    AllKnownStays(cfg, st, e, Received(st, c));
    AllKnownStays(cfg, st, e, Replaying(st, c));
    AllKnownStays(cfg, st, e, Pushing(st, c));
    AllKnownStays(cfg, st, e, Started(cfg, st, e, c));
  }

  lemma ServedBefore(cfg: Config, st: State, e: Event, c: Client)
    requires RoundOk(st) && Enabled(st, e) && c in st.infos
    ensures MayBeServed(Next(cfg, st, e), c) ==> MayBeServed(st, c)
  {
    hide OldPrefix, Due, Append, Distinct;
  }

  /** A turn that does not go through to a registered client is the last one. */
  lemma ServedAfterTurn(cfg: Config, st: State, e: Event, c: Client)
    requires RoundOk(st) && Enabled(st, e) && e.SendPush? && Pushing(st, c) != []
    ensures MayBeServed(Next(cfg, st, e), c) ==> e.outcome == Through && c in st.active
  {
    hide Distinct;
  }

  lemma NextMarker(cfg: Config, st: State, e: Event, c: Client)
    requires Enabled(st, e) && IsClientPublic(st, c)
    ensures c in Next(cfg, st, e).infos
    ensures Next(cfg, st, e).infos[c].lastSent ==
      if Made(st, e).Some? && Made(st, e).value.client == c && e.outcome == Through && c in st.active then
        Made(st, e).value.msg.ts
      else st.infos[c].lastSent
  {
    hide OldPrefix, Due, Append, Distinct;
  }

  lemma MarkedNext(cfg: Config, st: State, e: Event, c: Client)
    requires RoundOk(st) && Enabled(st, e) && IsClientPublic(st, c) && Marked(st, c) && Regular(st, e, c)
    ensures Marked(Next(cfg, st, e), c)
  {
    hide Next, Enabled, RoundOk, Made, Replaying, Pushing, Received, MayBeServed;
    NextReceived(cfg, st, e, c);
    MadeFor(st, e, c);
    NextMarker(cfg, st, e, c);
    ServedBefore(cfg, st, e, c);
    if e.SendPush? && Pushing(st, c) != [] { ServedAfterTurn(cfg, st, e, c); }
    assert Received(st, c) + [] == Received(st, c);
  }

  /** What the round lists for a marked client comes after the last message it received. */
  lemma DueBehind(st: State, c: Client, cutoff: int)
    requires c in st.infos && Marked(st, c) && MayBeServed(st, c) && AllKnown(st, Received(st, c))
    ensures Behind(Received(st, c), Due(st.buf, st.infos[c].lastSent, cutoff))
  {
    var s, due := Received(st, c), Due(st.buf, st.infos[c].lastSent, cutoff);
    DueExact(st.buf, st.infos[c].lastSent, cutoff);
    hide Due, Received, MayBeServed;
    if s != [] && due != [] {
      assert Known(st, s[|s| - 1]);
      assert due[0] in due && due[0] in st.buf;
    }
  }

  lemma RegularClean(cfg: Config, st: State, e: Event, c: Client)
    requires Enabled(st, e) && IsClientPublic(st, c) && Regular(st, e, c)
    requires Marked(st, c) && AllKnown(st, Received(st, c))
    ensures Clean(cfg, st, e, c)
  {
    if e.NextClient? && st.push.todo != [] && st.push.todo[0] == c { DueBehind(st, c, st.push.cutoff); }
    hide Marked, AllKnown, Received, Replaying, Pushing, OldPrefix, Due, Distinct;
  }

  lemma NewLists(st: State, c: Client)
    requires Received(st, c) == [] && Replaying(st, c) == [] && Pushing(st, c) == []
    requires c in st.infos && st.infos[c].lastSent == 0
    ensures Marked(st, c) && ListsKnown(st, c)
  {
  }

  /** Until the client is known every event is clean. */
  lemma UnknownClean(cfg: Config, st: State, e: Event, c: Client)
    requires RoundOk(st) && Enabled(st, e) && c !in st.infos
    ensures Clean(cfg, st, e, c)
  {
    hide OldPrefix, Due, Distinct;
  }

  /** A regular run is clean, and the client's marker follows what it received. */
  lemma {:induction false} RegularIsClean(cfg: Config, es: seq<Event>, c: Client)
    requires After(cfg, es).Some? && RegularRun(cfg, es, c)
    ensures CleanRun(cfg, es, c)
    ensures IsClientPublic(After(cfg, es).value, c) ==>
      Marked(After(cfg, es).value, c) && ListsKnown(After(cfg, es).value, c)
  {
    hide Enabled, Next, Clean, Marked, ListsKnown, Regular, Invariant;
    if es == [] {
      NothingYet(c);
    } else {
      var front, e := es[..|es| - 1], es[|es| - 1];
      RegularIsClean(cfg, front, c);
      PublicDelay(cfg, front);
      RegularStep(cfg, After(cfg, front).value, e, c);
    }
  }

  lemma RegularStep(cfg: Config, st: State, e: Event, c: Client)
    requires Invariant(cfg, st) && Enabled(st, e) && Regular(st, e, c)
    requires IsClientPublic(st, c) ==> Marked(st, c) && ListsKnown(st, c)
    ensures Clean(cfg, st, e, c)
    ensures IsClientPublic(Next(cfg, st, e), c) ==> Marked(Next(cfg, st, e), c) && ListsKnown(Next(cfg, st, e), c)
  {
    hide Next, Enabled, Clean, Marked, Regular, Invariant, AllKnown, Received, Replaying, Pushing;
    InvariantParts(cfg, st);
    if c !in st.infos {
      UnknownClean(cfg, st, e, c);
      if IsClientPublic(Next(cfg, st, e), c) {
        NewFlight(cfg, st, e, c);
        NewLists(Next(cfg, st, e), c);
      }
    } else if IsClientPublic(st, c) {
      RegularClean(cfg, st, e, c);
      MarkedNext(cfg, st, e, c);
      ListsKnownNext(cfg, st, e, c);
    } else {
      PayingClean(cfg, st, e, c);
      NextGrown(cfg, st, e);
    }
  }

  lemma PayingClean(cfg: Config, st: State, e: Event, c: Client)
    requires RoundOk(st) && Enabled(st, e) && c in st.infos && !IsClientPublic(st, c)
    ensures Clean(cfg, st, e, c)
  {
    hide OldPrefix, Due, Distinct;
  }

  /**
   * A public client whose replay and push turns do not overlap receives messages, replayed ones included, in
   * broadcast order and none twice, under every interleaving, disconnection and failure of its sends except a replay
   * send that raises after the message went out.
   */
  lemma RegularOrder(cfg: Config, es: seq<Event>, c: Client)
    requires After(cfg, es).Some? && RegularRun(cfg, es, c) && IsClientPublic(After(cfg, es).value, c)
    ensures InOrder(Received(After(cfg, es).value, c))
  {
    hide After, RegularRun, CleanRun, InOrder, Received;
    RegularIsClean(cfg, es, c);
    CleanInOrder(cfg, es, c);
  }

  /** A client for which no replay was started has nothing to replay, so its run is regular. */
  lemma {:induction false} UnreplayedRegular(cfg: Config, es: seq<Event>, c: Client)
    requires After(cfg, es).Some? && forall i | 0 <= i < |es| :: es[i] != StartReplay(c)
    ensures RegularRun(cfg, es, c) && Replaying(After(cfg, es).value, c) == []
  {
    hide Enabled, Next, Received, Pushing;
    if es != [] {
      var front, e := es[..|es| - 1], es[|es| - 1];
      var st := After(cfg, front).value;
      UnreplayedRegular(cfg, front, c);
      NextReplaying(cfg, st, e, c);
      if e.SendReplay? { ReplayHasMore(st, e); }
    }
  }

  lemma ReplayHasMore(st: State, e: Event)
    requires Enabled(st, e) && e.SendReplay?
    ensures Replaying(st, e.client) != []
  {
  }

  /** A client served by the push loop alone receives messages in broadcast order and none twice. */
  lemma PushOrder(cfg: Config, es: seq<Event>, c: Client)
    requires After(cfg, es).Some? && IsClientPublic(After(cfg, es).value, c)
    requires forall i | 0 <= i < |es| :: es[i] != StartReplay(c)
    ensures InOrder(Received(After(cfg, es).value, c))
  {
    UnreplayedRegular(cfg, es, c);
    RegularOrder(cfg, es, c);
  }

  /**
   * A replay send that raises after its message went out leaves the marker behind it: a round that lists the message
   * then does not start cleanly.
   */
  lemma LateReplayRepeats(cfg: Config, st: State, c: Client)
    requires Enabled(st, NextClient) && st.push.todo != [] && st.push.todo[0] == c && Sorted(st.buf)
    requires Received(st, c) != []
    requires var last := Received(st, c)[|Received(st, c)| - 1];
      last in st.buf && st.infos[c].lastSent < last.ts <= st.push.cutoff
    ensures !Clean(cfg, st, NextClient, c)
  {
    var last := Received(st, c)[|Received(st, c)| - 1];
    DueExact(st.buf, st.infos[c].lastSent, st.push.cutoff);
    DueSorted(st.buf, st.infos[c].lastSent, st.push.cutoff);
    var due := Due(st.buf, st.infos[c].lastSent, st.push.cutoff);
    hide Due, Received, Distinct;
    assert last in due;
    FirstIsLeast(due, last);
  }

  lemma FirstIsLeast(s: seq<Message>, m: Message)
    requires Sorted(s) && m in s
    ensures s[0].id <= m.id
  {
  }

  // ---------- nothing is skipped ----------

  /** A replay send that is lost is of a younger message than the marker, so that a round can take it up. */
  ghost predicate Resumable(st: State, e: Event, c: Client)
    requires Enabled(st, e)
  {
    e == SendReplay(c, Lost) ==> st.replays[c][0].ts > st.infos[c].lastSent
  }

  ghost predicate ResumableRun(cfg: Config, es: seq<Event>, c: Client)
    requires After(cfg, es).Some?
  {
    es == [] ||
    (var front, e := es[..|es| - 1], es[|es| - 1];
     ResumableRun(cfg, front, c) && Resumable(After(cfg, front).value, e, c))
  }

  /** A buffered message no younger than the marker is never listed for the client again. */
  lemma NotResumed(st: State, c: Client, m: Message, cutoff: int)
    requires c in st.infos && m.ts <= st.infos[c].lastSent
    ensures m !in Due(st.buf, st.infos[c].lastSent, cutoff)
  {
    DueExact(st.buf, st.infos[c].lastSent, cutoff);
  }

  /** What either task still has to send; at most one of the two lists is not empty. */
  function UnderWay(st: State, c: Client): seq<Message> { Replaying(st, c) + Pushing(st, c) }

  /** Every buffered message with a positive timestamp up to t is in s or in u. */
  ghost predicate Covers(buf: seq<Message>, t: int, s: seq<Message>, u: seq<Message>) {
    forall i | 0 <= i < |buf| && 0 < buf[i].ts <= t :: buf[i] in s || buf[i] in u
  }

  /** Every buffered message with a positive timestamp and an earlier number than the last of s is in s. */
  ghost predicate Earlier(buf: seq<Message>, s: seq<Message>) {
    s != [] ==> forall i | 0 <= i < |buf| && 0 < buf[i].ts && buf[i].id < s[|s| - 1].id :: buf[i] in s
  }

  /** Up to the end of what is under way everything was received or is under way. */
  ghost predicate Closed(buf: seq<Message>, s: seq<Message>, u: seq<Message>) {
    Sorted(u) && (u != [] ==> Covers(buf, u[|u| - 1].ts, s, u))
  }

  /** So it is up to the marker while the client may be served, and up to the cutoff during its turn. */
  ghost predicate Marker(st: State, c: Client) {
    c in st.infos && MayBeServed(st, c) ==> Covers(st.buf, st.infos[c].lastSent, Received(st, c), UnderWay(st, c))
  }

  ghost predicate Turn(st: State, c: Client) {
    st.push.Round? && st.push.current == Some(c) ==>
      Covers(st.buf, st.push.cutoff, Received(st, c), Pushing(st, c))
  }

  ghost predicate Gapless(st: State, c: Client) {
    && Closed(st.buf, Received(st, c), UnderWay(st, c)) && Earlier(st.buf, Received(st, c))
    && Marker(st, c) && Turn(st, c)
  }

  // ---------- the parts, on plain sequences ----------

  lemma CoversMoved(buf: seq<Message>, t: int, s: seq<Message>, u: seq<Message>)
    requires u != [] && Covers(buf, t, s, u)
    ensures Covers(buf, t, s + [u[0]], u[1..])
  {
    assert u == [u[0]] + u[1..];
    forall m: Message | m in s || m in u ensures m in s + [u[0]] || m in u[1..] {
    }
  }

  lemma CoversLess(buf: seq<Message>, t: int, t': int, s: seq<Message>, u: seq<Message>)
    requires Covers(buf, t, s, u) && t' <= t
    ensures Covers(buf, t', s, u)
  {
  }

  /** A larger list received covers no less. */
  lemma CoversMore(buf: seq<Message>, t: int, s: seq<Message>, m: Message, u: seq<Message>)
    requires Covers(buf, t, s, u)
    ensures Covers(buf, t, s + [m], u)
  {
  }

  lemma ClosedMoved(buf: seq<Message>, s: seq<Message>, u: seq<Message>)
    requires u != [] && Closed(buf, s, u)
    ensures Closed(buf, s + [u[0]], u[1..]) && Covers(buf, u[0].ts, s + [u[0]], u[1..])
  {
    CoversMoved(buf, u[|u| - 1].ts, s, u);
    assert u[0].ts <= u[|u| - 1].ts;
    CoversLess(buf, u[|u| - 1].ts, u[0].ts, s + [u[0]], u[1..]);
    hide Covers;
  }

  lemma NothingClosed(buf: seq<Message>, s: seq<Message>)
    ensures Closed(buf, s, [])
  {
  }

  /** Sending the head of what is under way leaves no earlier buffered message behind. */
  lemma EarlierMoved(buf: seq<Message>, s: seq<Message>, u: seq<Message>)
    requires u != [] && Closed(buf, s, u) && Follows(u[0], buf)
    ensures Earlier(buf, s + [u[0]])
  {
    forall i | 0 <= i < |buf| && 0 < buf[i].ts && buf[i].id < u[0].id ensures buf[i] in s + [u[0]] {
      assert buf[i].ts <= u[0].ts <= u[|u| - 1].ts;
      if buf[i] in u { FirstIsLeast(u, buf[i]); }
    }
  }

  lemma ReplayCloses(buf: seq<Message>, cutoff: int, s: seq<Message>)
    requires Sorted(buf)
    ensures Closed(buf, s, OldPrefix(buf, cutoff))
  {
    OldPrefixSorted(buf, cutoff);
    OldPrefixExact(buf, cutoff);
    OldPrefixOld(buf, cutoff);
    hide OldPrefix;
  }

  /** A turn lists all that is missing up to its cutoff. */
  lemma TurnCloses(buf: seq<Message>, marker: int, cutoff: int, s: seq<Message>)
    requires Sorted(buf) && Covers(buf, marker, s, [])
    ensures Covers(buf, cutoff, s, Due(buf, marker, cutoff))
    ensures Covers(buf, marker, s, Due(buf, marker, cutoff))
    ensures Closed(buf, s, Due(buf, marker, cutoff))
  {
    DueSorted(buf, marker, cutoff);
    DueExact(buf, marker, cutoff);
    DueOld(buf, marker, cutoff);
    hide Due;
  }

  lemma AppendMembers(buf: seq<Message>, m: Message, maxlen: nat, i: nat)
    requires i < |Append(buf, m, maxlen)|
    ensures Append(buf, m, maxlen)[i] in buf || Append(buf, m, maxlen)[i] == m
  {
    assert Append(buf, m, maxlen)[i] in buf + [m];
  }

  lemma CoversBroadcast(buf: seq<Message>, m: Message, maxlen: nat, t: int, s: seq<Message>, u: seq<Message>)
    requires Covers(buf, t, s, u) && (m.ts > 0 ==> m.ts > t)
    ensures Covers(Append(buf, m, maxlen), t, s, u)
  {
    var r := Append(buf, m, maxlen);
    forall i | 0 <= i < |r| && 0 < r[i].ts <= t ensures r[i] in s || r[i] in u {
      AppendMembers(buf, m, maxlen, i);
      var j :| 0 <= j < |buf| && buf[j] == r[i];
    }
  }

  lemma EarlierBroadcast(buf: seq<Message>, m: Message, maxlen: nat, s: seq<Message>)
    requires Earlier(buf, s) && (s != [] ==> s[|s| - 1].id < m.id)
    ensures Earlier(Append(buf, m, maxlen), s)
  {
    var r := Append(buf, m, maxlen);
    if s != [] {
      forall i | 0 <= i < |r| && 0 < r[i].ts && r[i].id < s[|s| - 1].id ensures r[i] in s {
        AppendMembers(buf, m, maxlen, i);
        var j :| 0 <= j < |buf| && buf[j] == r[i];
      }
    }
  }

  // ---------- every event keeps them ----------

  /** What was received is old: a public client gets nothing younger than the delay. */
  lemma {:induction false} ReceivedOld(cfg: Config, st: State, sent: seq<Delivery>, c: Client)
    requires IsClientPublic(st, c) && forall i | 0 <= i < |sent| :: DelayOk(cfg, st, sent[i])
    ensures OldEnough(SentTo(sent, c), st.clock - cfg.delay)
  {
    if sent != [] { ReceivedOld(cfg, st, sent[..|sent| - 1], c); }
  }

  lemma UnderWayOld(cfg: Config, st: State, c: Client)
    requires ReplaysOld(cfg, st) && PendingOld(cfg, st)
    ensures OldEnough(UnderWay(st, c), st.clock - cfg.delay)
    ensures st.push.Round? ==> st.push.cutoff <= st.clock - cfg.delay
  {
  }

  lemma SameLists(cfg: Config, st: State, e: Event, c: Client)
    requires Enabled(st, e) && IsClientPublic(st, c) && (e.Broadcast? || e.Tick? || e.Register?)
    ensures var r := Next(cfg, st, e);
      && Received(r, c) == Received(st, c) && UnderWay(r, c) == UnderWay(st, c) && Pushing(r, c) == Pushing(st, c)
  {
    NextReceived(cfg, st, e, c);
    NextReplaying(cfg, st, e, c);
    NextPushing(cfg, st, e, c);
    MadeFor(st, e, c);
    hide Next, Enabled, Received, Replaying, Pushing;
  }

  lemma BroadcastPush(cfg: Config, st: State, c: Client)
    requires c in st.infos
    ensures var r := Next(cfg, st, Broadcast);
      && r.push == st.push && r.infos == st.infos && r.active == st.active
      && r.buf == Append(st.buf, Message(st.clock, st.count), cfg.maxlen)
  {
    hide Append;
  }

  lemma LastOld(s: seq<Message>, t: int)
    requires OldEnough(s, t) && s != []
    ensures s[|s| - 1].ts <= t
  {
  }

  lemma LastKnown(st: State, s: seq<Message>)
    requires AllKnown(st, s) && s != []
    ensures Known(st, s[0]) && Known(st, s[|s| - 1])
  {
    hide Known;
  }

  lemma NewerThanUnderWay(cfg: Config, st: State, c: Client)
    requires cfg.delay > 0 && ReplaysOld(cfg, st) && PendingOld(cfg, st)
    ensures UnderWay(st, c) != [] ==> UnderWay(st, c)[|UnderWay(st, c)| - 1].ts < st.clock
    ensures st.push.Round? ==> st.push.cutoff < st.clock
  {
    hide UnderWay;
    UnderWayOld(cfg, st, c);
    if UnderWay(st, c) != [] { LastOld(UnderWay(st, c), st.clock - cfg.delay); }
  }

  lemma NewerThanMarker(cfg: Config, st: State, c: Client)
    requires cfg.delay > 0 && SentOk(cfg, st) && IsClientPublic(st, c) && Marked(st, c) && MayBeServed(st, c)
    ensures st.clock > 0 ==> st.infos[c].lastSent < st.clock
  {
    hide MayBeServed;
    ReceivedOld(cfg, st, st.sent, c);
    if Received(st, c) != [] { LastOld(Received(st, c), st.clock - cfg.delay); }
  }

  lemma LaterThanReceived(st: State, c: Client)
    requires ListsKnown(st, c) && Received(st, c) != []
    ensures Received(st, c)[|Received(st, c)| - 1].id < st.count
  {
    hide Received, Replaying, Pushing, Known;
    LastKnown(st, Received(st, c));
    KnownBefore(st, Received(st, c)[|Received(st, c)| - 1]);
  }

  lemma ClosedBroadcast(buf: seq<Message>, m: Message, maxlen: nat, s: seq<Message>, u: seq<Message>)
    requires Closed(buf, s, u) && (u != [] ==> u[|u| - 1].ts < m.ts)
    ensures Closed(Append(buf, m, maxlen), s, u)
  {
    hide Covers, Append, Sorted;
    if u != [] { CoversBroadcast(buf, m, maxlen, u[|u| - 1].ts, s, u); }
  }

  /** With a positive delay a new broadcast is younger than all that the client has received or waits for. */
  lemma GaplessBroadcast(cfg: Config, st: State, c: Client)
    requires cfg.delay > 0 && Delayed(cfg, st) && IsClientPublic(st, c)
    requires Marked(st, c) && ListsKnown(st, c) && Gapless(st, c)
    ensures Gapless(Next(cfg, st, Broadcast), c)
  {
    hide ReplaysOld, PendingOld, SentOk, Marked, ListsKnown, Closed, Covers, Earlier, Next, Received, UnderWay, Pushing;
    hide MayBeServed, Append;
    var m, s, u, p := Message(st.clock, st.count), Received(st, c), UnderWay(st, c), Pushing(st, c);
    SameLists(cfg, st, Broadcast, c);
    BroadcastPush(cfg, st, c);
    ServedSame(cfg, st, c);
    NewerThanUnderWay(cfg, st, c);
    ClosedBroadcast(st.buf, m, cfg.maxlen, s, u);
    if s != [] { LaterThanReceived(st, c); }
    EarlierBroadcast(st.buf, m, cfg.maxlen, s);
    if MayBeServed(st, c) {
      NewerThanMarker(cfg, st, c);
      CoversBroadcast(st.buf, m, cfg.maxlen, st.infos[c].lastSent, s, u);
    }
    if st.push.Round? && st.push.current == Some(c) {
      CoversBroadcast(st.buf, m, cfg.maxlen, st.push.cutoff, s, p);
    }
  }

  lemma ServedSame(cfg: Config, st: State, c: Client)
    requires c in st.infos
    ensures MayBeServed(Next(cfg, st, Broadcast), c) <==> MayBeServed(st, c)
  {
    hide Append;
  }

  lemma KnownBefore(st: State, m: Message)
    requires Known(st, m)
    ensures m.id < st.count && Follows(m, st.buf)
  {
  }

  lemma BufferStays(cfg: Config, st: State, e: Event)
    requires Enabled(st, e) && !e.Broadcast?
    ensures Next(cfg, st, e).buf == st.buf
  {
    hide OldPrefix, Due, Distinct;
  }

  /** The client's turn goes on only through the sends of the round, and the cutoff stays the same. */
  lemma TurnStays(cfg: Config, st: State, e: Event, c: Client)
    requires RoundOk(st) && Enabled(st, e) && !e.NextClient?
    ensures var r := Next(cfg, st, e);
      r.push.Round? && r.push.current == Some(c) ==>
        && st.push.Round? && st.push.current == Some(c) && r.push.cutoff == st.push.cutoff
        && (e.SendPush? ==> Pushing(st, c) != [] && e.outcome == Through && c in st.active)
  {
    hide OldPrefix, Append, Distinct;
  }

  /** The three facts about lists and marker that the cases share. */
  ghost predicate Moved(cfg: Config, st: State, e: Event, c: Client, s: seq<Message>, r: seq<Message>, p: seq<Message>)
    requires Enabled(st, e)
  {
    var next := Next(cfg, st, e);
    Received(next, c) == s && Replaying(next, c) == r && Pushing(next, c) == p && next.buf == st.buf
  }

  lemma GaplessIf(cfg: Config, st: State, e: Event, c: Client, s: seq<Message>, r: seq<Message>, p: seq<Message>)
    requires Enabled(st, e) && Moved(cfg, st, e, c, s, r, p)
    requires Closed(st.buf, s, r + p) && Earlier(st.buf, s)
    requires var next := Next(cfg, st, e);
      && (c in next.infos && MayBeServed(next, c) ==> Covers(st.buf, next.infos[c].lastSent, s, r + p))
      && (next.push.Round? && next.push.current == Some(c) ==> Covers(st.buf, next.push.cutoff, s, p))
    ensures Gapless(Next(cfg, st, e), c)
  {
    hide Next, Enabled, Closed, Earlier, Covers, MayBeServed, Received, Replaying, Pushing;
  }

  lemma EmptyEnds(s: seq<Message>)
    ensures [] + s == s && s + [] == s
  {
  }

  lemma GaplessReplay(cfg: Config, st: State, c: Client)
    requires BufferOk(cfg, st) && RoundOk(st) && Enabled(st, StartReplay(c)) && Regular(st, StartReplay(c), c)
    requires Marked(st, c) && Gapless(st, c)
    ensures Gapless(Next(cfg, st, StartReplay(c)), c)
  {
    hide Next, Enabled, Received, Replaying, Pushing, Closed, Covers, Earlier, OldPrefix, MayBeServed, RoundOk, Made;
    hide Sorted;
    var e, list := StartReplay(c), OldPrefix(st.buf, st.clock - cfg.delay);
    ReplayStarts(cfg, st, c);
    NoDelivery(st, e, c);
    NextMarker(cfg, st, e, c);
    ServedBefore(cfg, st, e, c);
    TurnStays(cfg, st, e, c);
    ReplayCloses(st.buf, st.clock - cfg.delay, []);
    NothingEarlier(st.buf);
    NoneUpToZero(st.buf, 0, [], list);
    EmptyEnds(list);
    GaplessIf(cfg, st, e, c, [], list, []);
  }

  lemma NothingEarlier(buf: seq<Message>)
    ensures Earlier(buf, [])
  {
  }

  lemma NoDelivery(st: State, e: Event, c: Client)
    requires Enabled(st, e) && e == StartReplay(c)
    ensures Made(st, e) == None && IsClientPublic(st, c)
  {
    hide Distinct;
  }

  /** The client's three lists once its replay has started. */
  lemma ReplayStarts(cfg: Config, st: State, c: Client)
    requires Enabled(st, StartReplay(c)) && Received(st, c) == [] && Pushing(st, c) == []
    ensures Moved(cfg, st, StartReplay(c), c, [], OldPrefix(st.buf, st.clock - cfg.delay), [])
  {
    var e := StartReplay(c);
    NextReceived(cfg, st, e, c);
    NextReplaying(cfg, st, e, c);
    NextPushing(cfg, st, e, c);
    BufferStays(cfg, st, e);
    hide Next, Received, Replaying, Pushing, OldPrefix, Distinct;
  }

  lemma NoneUpToZero(buf: seq<Message>, t: int, s: seq<Message>, u: seq<Message>)
    requires t <= 0
    ensures Covers(buf, t, s, u)
  {
  }

  lemma TakenMayBeServed(st: State, c: Client)
    requires Enabled(st, NextClient) && st.push.todo != [] && st.push.todo[0] == c
    ensures MayBeServed(st, c) && c in st.infos
  {
  }

  lemma ServeTurn(cfg: Config, st: State, c: Client)
    requires RoundOk(st) && Enabled(st, NextClient)
    ensures var next := Next(cfg, st, NextClient);
      next.push.Round? && next.push.current == Some(c) ==>
        st.push.todo != [] && st.push.todo[0] == c && next.push.cutoff == st.push.cutoff
  {
    hide Due, Distinct;
  }

  /** The client's three lists once the next turn has started. */
  lemma TurnStarts(cfg: Config, st: State, c: Client)
    requires RoundOk(st) && Enabled(st, NextClient)
    ensures Moved(cfg, st, NextClient, c, Received(st, c), Replaying(st, c), Started(cfg, st, NextClient, c))
    ensures Pushing(st, c) == [] && Made(st, NextClient) == None
  {
    var e, s := NextClient, Received(st, c);
    IdlePush(st, e, c);
    NextReceived(cfg, st, e, c);
    NextReplaying(cfg, st, e, c);
    NextPushing(cfg, st, e, c);
    BufferStays(cfg, st, e);
    EmptyEnds(s);
    hide Next, Received, Replaying, Pushing, Started, RoundOk, Distinct;
  }

  lemma GaplessTurn(cfg: Config, st: State, c: Client)
    requires BufferOk(cfg, st) && RoundOk(st) && Enabled(st, NextClient) && Regular(st, NextClient, c)
    requires IsClientPublic(st, c) && Gapless(st, c)
    ensures Gapless(Next(cfg, st, NextClient), c)
  {
    hide Next, Received, Replaying, Pushing, Closed, Covers, Earlier, Due, MayBeServed, RoundOk, Made, Sorted, Distinct;
    var e, s, r, due := NextClient, Received(st, c), Replaying(st, c), Started(cfg, st, NextClient, c);
    TurnStarts(cfg, st, c);
    NextMarker(cfg, st, e, c);
    ServedBefore(cfg, st, e, c);
    ServeTurn(cfg, st, c);
    EmptyEnds(r);
    EmptyEnds(due);
    if st.push.todo != [] && st.push.todo[0] == c {
      TakenMayBeServed(st, c);
      TurnCloses(st.buf, st.infos[c].lastSent, st.push.cutoff, s);
    }
    GaplessIf(cfg, st, e, c, s, r, due);
  }

  /** The client's three lists once a message of its turn has gone out. */
  lemma PushMoves(cfg: Config, st: State, e: Event, c: Client)
    requires Enabled(st, e) && IsClientPublic(st, c) && Pushes(st, e, c)
    ensures var p := Pushing(st, c);
      && Moved(cfg, st, e, c, Received(st, c) + [p[0]], Replaying(st, c),
               if e.outcome == Through && c in st.active then p[1..] else [])
      && Made(st, e).Some? && Made(st, e).value.client == c && Made(st, e).value.msg == p[0]
  {
    hide Next, Enabled, Received, Replaying, Pushing, Made, Distinct;
    MadeFor(st, e, c);
    NextReceived(cfg, st, e, c);
    NextReplaying(cfg, st, e, c);
    NextPushing(cfg, st, e, c);
    BufferStays(cfg, st, e);
  }

  lemma FlightEmpty(st: State, c: Client)
    requires FlightOk(st, c)
    ensures Replaying(st, c) == [] || Pushing(st, c) == []
  {
    hide Replaying, Pushing, Received;
  }

  lemma HeadKnown(st: State, c: Client, s: seq<Message>)
    requires ListsKnown(st, c) && s != [] && (s == Replaying(st, c) || s == Pushing(st, c))
    ensures Follows(s[0], st.buf)
  {
    hide Replaying, Pushing, Received;
    assert Known(st, s[0]);
  }

  /** A message goes out to the client, and the rest of its list stays under way or is given up. */
  lemma GaplessPush(cfg: Config, st: State, e: Event, c: Client)
    requires RoundOk(st) && Enabled(st, e) && IsClientPublic(st, c)
    requires FlightOk(st, c) && ListsKnown(st, c) && Gapless(st, c) && Pushes(st, e, c)
    ensures Gapless(Next(cfg, st, e), c)
  {
    hide Next, Enabled, Received, Replaying, Pushing, Closed, Covers, Earlier, MayBeServed, RoundOk, Made, Follows;
    hide FlightOk, ListsKnown;
    var s, p := Received(st, c), Pushing(st, c);
    FlightEmpty(st, c);
    HeadKnown(st, c, p);
    PushMoves(cfg, st, e, c);
    NextMarker(cfg, st, e, c);
    ServedAfterTurn(cfg, st, e, c);
    TurnStays(cfg, st, e, c);
    EmptyEnds(p);
    EmptyEnds(p[1..]);
    EmptyEnds([]);
    ClosedMoved(st.buf, s, p);
    EarlierMoved(st.buf, s, p);
    NothingClosed(st.buf, s + [p[0]]);
    if st.push.Round? && st.push.current == Some(c) { CoversMoved(st.buf, st.push.cutoff, s, p); }
    GaplessIf(cfg, st, e, c, s + [p[0]], [], if e.outcome == Through && c in st.active then p[1..] else []);
  }

  /** The client's three lists once a message of its replay has gone out. */
  lemma ReplayMoves(cfg: Config, st: State, c: Client)
    requires Enabled(st, SendReplay(c, Through)) && IsClientPublic(st, c)
    ensures var e, r := SendReplay(c, Through), Replaying(st, c);
      && r != [] && Moved(cfg, st, e, c, Received(st, c) + [r[0]], r[1..], Pushing(st, c))
      && Made(st, e).Some? && Made(st, e).value.client == c && Made(st, e).value.msg == r[0]
  {
    var e := SendReplay(c, Through);
    hide Next, Enabled, Received, Replaying, Pushing, Made, Distinct;
    MadeFor(st, e, c);
    NextReceived(cfg, st, e, c);
    NextReplaying(cfg, st, e, c);
    NextPushing(cfg, st, e, c);
    BufferStays(cfg, st, e);
  }

  lemma GaplessResend(cfg: Config, st: State, c: Client)
    requires RoundOk(st) && Enabled(st, SendReplay(c, Through)) && IsClientPublic(st, c)
    requires Regular(st, SendReplay(c, Through), c) && FlightOk(st, c) && ListsKnown(st, c) && Gapless(st, c)
    ensures Gapless(Next(cfg, st, SendReplay(c, Through)), c)
  {
    hide Next, Enabled, Received, Replaying, Pushing, Closed, Covers, Earlier, MayBeServed, RoundOk, Made, Follows;
    hide FlightOk, ListsKnown;
    var e, s, r := SendReplay(c, Through), Received(st, c), Replaying(st, c);
    ReplayMoves(cfg, st, c);
    FlightEmpty(st, c);
    HeadKnown(st, c, r);
    NextMarker(cfg, st, e, c);
    ServedBefore(cfg, st, e, c);
    TurnStays(cfg, st, e, c);
    EmptyEnds(r);
    EmptyEnds(r[1..]);
    ClosedMoved(st.buf, s, r);
    EarlierMoved(st.buf, s, r);
    if st.push.Round? && st.push.current == Some(c) { CoversMore(st.buf, st.push.cutoff, s, r[0], []); }
    GaplessIf(cfg, st, e, c, s + [r[0]], r[1..], []);
  }

  /** A replay given up above the marker leaves nothing behind that a round could not list. */
  lemma CoversWithout(buf: seq<Message>, t: int, s: seq<Message>, u: seq<Message>)
    requires Covers(buf, t, s, u) && Sorted(u) && (u != [] ==> u[0].ts > t)
    ensures Covers(buf, t, s, [])
  {
    forall i | 0 <= i < |buf| && 0 < buf[i].ts <= t ensures buf[i] in s {
      if buf[i] in u { FirstIsOldest(u, buf[i]); }
    }
  }

  lemma FirstIsOldest(s: seq<Message>, m: Message)
    requires Sorted(s) && m in s
    ensures s[0].ts <= m.ts
  {
  }

  lemma ReplayEnds(cfg: Config, st: State, c: Client)
    requires Enabled(st, SendReplay(c, Lost)) && IsClientPublic(st, c)
    ensures Moved(cfg, st, SendReplay(c, Lost), c, Received(st, c), [], Pushing(st, c))
    ensures Replaying(st, c) != [] && Replaying(st, c) == st.replays[c] && Made(st, SendReplay(c, Lost)) == None
  {
    var e := SendReplay(c, Lost);
    NextReceived(cfg, st, e, c);
    NextReplaying(cfg, st, e, c);
    NextPushing(cfg, st, e, c);
    BufferStays(cfg, st, e);
    EmptyEnds(Received(st, c));
    hide Next, Received, Pushing, Distinct;
  }

  lemma GaplessGivenUp(cfg: Config, st: State, c: Client)
    requires RoundOk(st) && Enabled(st, SendReplay(c, Lost)) && IsClientPublic(st, c)
    requires Resumable(st, SendReplay(c, Lost), c) && FlightOk(st, c) && Gapless(st, c)
    ensures Gapless(Next(cfg, st, SendReplay(c, Lost)), c)
  {
    hide Next, Enabled, Received, Replaying, Pushing, Covers, Earlier, MayBeServed, RoundOk, Made, FlightOk, Sorted;
    var e, s, r := SendReplay(c, Lost), Received(st, c), Replaying(st, c);
    ReplayEnds(cfg, st, c);
    FlightEmpty(st, c);
    NextMarker(cfg, st, e, c);
    ServedBefore(cfg, st, e, c);
    TurnStays(cfg, st, e, c);
    EmptyEnds(r);
    EmptyEnds([]);
    if MayBeServed(st, c) { CoversWithout(st.buf, st.infos[c].lastSent, s, r); }
    NothingClosed(st.buf, s);
    GaplessIf(cfg, st, e, c, s, [], []);
  }

  /** The client's three lists after an event that does not concern it, or ends its turn with nothing sent. */
  lemma QuietMoves(cfg: Config, st: State, e: Event, c: Client)
    requires RoundOk(st) && Enabled(st, e) && IsClientPublic(st, c)
    requires !e.Broadcast? && e != StartReplay(c) && !e.NextClient? && !(e.SendReplay? && e.client == c)
    requires !Pushes(st, e, c)
    ensures Moved(cfg, st, e, c, Received(st, c), Replaying(st, c), if e.SendPush? then [] else Pushing(st, c))
    ensures !(Made(st, e).Some? && Made(st, e).value.client == c)
  {
    hide Next, Enabled, Received, Replaying, Pushing, Made, RoundOk;
    MadeFor(st, e, c);
    NextReceived(cfg, st, e, c);
    NextReplaying(cfg, st, e, c);
    NextPushing(cfg, st, e, c);
    BufferStays(cfg, st, e);
    EmptyEnds(Received(st, c));
    if e.StartPush? { IdlePush(st, e, c); }
  }

  lemma GaplessQuiet(cfg: Config, st: State, e: Event, c: Client)
    requires RoundOk(st) && Enabled(st, e) && IsClientPublic(st, c) && Gapless(st, c) && FlightOk(st, c)
    requires !e.Broadcast? && e != StartReplay(c) && !e.NextClient? && !(e.SendReplay? && e.client == c)
    requires !Pushes(st, e, c)
    ensures Gapless(Next(cfg, st, e), c)
  {
    hide Next, Enabled, Received, Replaying, Pushing, Closed, Covers, Earlier, MayBeServed, RoundOk, Made, FlightOk;
    var s, r, p := Received(st, c), Replaying(st, c), Pushing(st, c);
    QuietMoves(cfg, st, e, c);
    FlightEmpty(st, c);
    NextMarker(cfg, st, e, c);
    ServedBefore(cfg, st, e, c);
    TurnStays(cfg, st, e, c);
    if e.SendPush? && p != [] { ServedAfterTurn(cfg, st, e, c); }
    NothingClosed(st.buf, s);
    EmptyEnds(r);
    EmptyEnds(p);
    GaplessIf(cfg, st, e, c, s, r, if e.SendPush? then [] else p);
  }

  lemma GaplessNext(cfg: Config, st: State, e: Event, c: Client)
    requires cfg.delay > 0 && Invariant(cfg, st) && Enabled(st, e) && IsClientPublic(st, c)
    requires Regular(st, e, c) && Resumable(st, e, c)
    requires FlightOk(st, c) && Marked(st, c) && ListsKnown(st, c) && Gapless(st, c)
    ensures Gapless(Next(cfg, st, e), c)
  {
    hide Next, Enabled, FlightOk, Marked, ListsKnown, Gapless, Resumable, Pushing, Received, Replaying;
    hide BufferOk, RoundOk, ReplaysPublic, Delayed;
    if e.Broadcast? {
      GaplessBroadcast(cfg, st, c);
    } else if e == StartReplay(c) {
      GaplessReplay(cfg, st, c);
    } else if e.NextClient? {
      GaplessTurn(cfg, st, c);
    } else if Pushes(st, e, c) {
      GaplessPush(cfg, st, e, c);
    } else if e.SendReplay? && e.client == c {
      match e.outcome
      case Through => GaplessResend(cfg, st, c);
      case Lost => GaplessGivenUp(cfg, st, c);
      case Late =>
    } else {
      GaplessQuiet(cfg, st, e, c);
    }
  }

  lemma NewGapless(st: State, c: Client)
    requires Received(st, c) == [] && Replaying(st, c) == [] && Pushing(st, c) == []
    requires c in st.infos && st.infos[c].lastSent == 0
    requires !(st.push.Round? && st.push.current == Some(c))
    ensures Gapless(st, c)
  {
    hide Received, Replaying, Pushing, MayBeServed;
  }

  lemma NewNotCurrent(cfg: Config, st: State, e: Event, c: Client)
    requires RoundOk(st) && Enabled(st, e) && e.Register? && e.client == c
    ensures !(Next(cfg, st, e).push.Round? && Next(cfg, st, e).push.current == Some(c))
  {
    hide Distinct;
  }

  lemma {:induction false} AlwaysGapless(cfg: Config, es: seq<Event>, c: Client)
    requires cfg.delay > 0 && After(cfg, es).Some? && RegularRun(cfg, es, c) && ResumableRun(cfg, es, c)
    requires IsClientPublic(After(cfg, es).value, c)
    ensures Gapless(After(cfg, es).value, c)
  {
    hide Enabled, Next, Gapless, Regular, Resumable, FlightOk, Marked, ListsKnown, Invariant, CleanRun;
    if es == [] {
      NothingYet(c);
    } else {
      var front, e := es[..|es| - 1], es[|es| - 1];
      var st := After(cfg, front).value;
      PublicDelay(cfg, front);
      if c in st.infos {
        PublicBefore(cfg, st, e, c);
        AlwaysGapless(cfg, front, c);
        RegularIsClean(cfg, front, c);
        CleanInOrder(cfg, front, c);
        GaplessNext(cfg, st, e, c);
      } else {
        NewFlight(cfg, st, e, c);
        OnlyRegister(cfg, st, e, c);
        InvariantParts(cfg, st);
        NewNotCurrent(cfg, st, e, c);
        NewGapless(Next(cfg, st, e), c);
      }
    }
  }

  /**
   * With a positive delay, a client of a regular run skips nothing, whatever fails or disconnects, unless a replay send
   * is lost in the instant of the marker: every buffered message broadcast before the last one it received has been
   * received too.
   */
  lemma NothingSkipped(cfg: Config, es: seq<Event>, c: Client, m: Message)
    requires cfg.delay > 0 && After(cfg, es).Some? && RegularRun(cfg, es, c) && ResumableRun(cfg, es, c)
    requires var st := After(cfg, es).value;
      && IsClientPublic(st, c) && m in st.buf && m.ts > 0
      && Received(st, c) != [] && m.id < Received(st, c)[|Received(st, c)| - 1].id
    ensures m in Received(After(cfg, es).value, c)
  {
    hide After, RegularRun, ResumableRun, Gapless, Received, IsClientPublic;
    AlwaysGapless(cfg, es, c);
    ReceivedBefore(After(cfg, es).value, c, m);
  }

  lemma ReceivedBefore(st: State, c: Client, m: Message)
    requires Gapless(st, c) && m in st.buf && m.ts > 0
    requires Received(st, c) != [] && m.id < Received(st, c)[|Received(st, c)| - 1].id
    ensures m in Received(st, c)
  {
    hide Closed, Marker, Turn, Received;
  }

  /** ... and when its turn has nothing left to send it has received everything buffered up to the round's cutoff. */
  lemma TurnCatchesUp(cfg: Config, es: seq<Event>, c: Client, m: Message)
    requires cfg.delay > 0 && After(cfg, es).Some? && RegularRun(cfg, es, c) && ResumableRun(cfg, es, c)
    requires var st := After(cfg, es).value;
      && IsClientPublic(st, c) && st.push.Round? && st.push.current == Some(c) && st.push.pending == []
      && m in st.buf && 0 < m.ts <= st.push.cutoff
    ensures m in Received(After(cfg, es).value, c)
  {
    hide After, RegularRun, ResumableRun, Gapless, Received;
    AlwaysGapless(cfg, es, c);
    ReceivedUpTo(After(cfg, es).value, c, m);
  }

  lemma ReceivedUpTo(st: State, c: Client, m: Message)
    requires Gapless(st, c) && st.push.Round? && st.push.current == Some(c) && st.push.pending == []
    requires m in st.buf && 0 < m.ts <= st.push.cutoff
    ensures m in Received(st, c)
  {
    assert Pushing(st, c) == [];
    hide Closed, Marker, Earlier, Received, Pushing;
  }

  /** Ascending timestamps, all above t. */
  ghost predicate Above(s: seq<Message>, t: int) {
    (forall i | 0 <= i < |s| :: s[i].ts > t) && (forall i, j | 0 <= i < j < |s| :: s[i].ts < s[j].ts)
  }

  /** Throughout the run the buffered messages have positive timestamps, no two the same. */
  ghost predicate DistinctTimes(cfg: Config, es: seq<Event>)
    requires After(cfg, es).Some?
  {
    var buf := After(cfg, es).value.buf;
    && (forall i | 0 <= i < |buf| :: buf[i].ts > 0)
    && (forall i, j | 0 <= i < j < |buf| :: buf[i].ts != buf[j].ts)
    && (es == [] || DistinctTimes(cfg, es[..|es| - 1]))
  }

  /** The replay ascends from above the marker, which is 0 until something is received. */
  ghost predicate Climbs(st: State, c: Client)
    requires c in st.infos
  {
    && Above(Replaying(st, c), st.infos[c].lastSent)
    && (Received(st, c) == [] ==> st.infos[c].lastSent == 0)
  }

  lemma DistinctAbove(cfg: Config, es: seq<Event>, cutoff: int)
    requires After(cfg, es).Some? && DistinctTimes(cfg, es) && Invariant(cfg, After(cfg, es).value)
    ensures Above(OldPrefix(After(cfg, es).value.buf, cutoff), 0)
  {
    OldPrefixExact(After(cfg, es).value.buf, cutoff);
    hide After, OldPrefix;
  }

  lemma AboveMoved(s: seq<Message>, t: int)
    requires Above(s, t)
    ensures s != [] ==> Above(s[1..], s[0].ts)
    ensures forall t' :: Above([], t')
  {
  }

  lemma ClimbsNext(cfg: Config, st: State, e: Event, c: Client)
    requires Enabled(st, e) && IsClientPublic(st, c) && Regular(st, e, c)
    requires FlightOk(st, c) && Climbs(st, c) && Above(OldPrefix(st.buf, st.clock - cfg.delay), 0)
    ensures c in Next(cfg, st, e).infos && Climbs(Next(cfg, st, e), c)
  {
    hide Next, Enabled, Received, Replaying, Pushing, Made, FlightOk, OldPrefix, Due, Above;
    AboveMoved(Replaying(st, c), st.infos[c].lastSent);
    FlightEmpty(st, c);
    MadeFor(st, e, c);
    NextReceived(cfg, st, e, c);
    NextReplaying(cfg, st, e, c);
    NextMarker(cfg, st, e, c);
    EmptyEnds(Received(st, c));
  }

  /** Without two buffered messages in one instant every replay send may fail: a regular run is resumable. */
  lemma {:induction false} DistinctTimesResumable(cfg: Config, es: seq<Event>, c: Client)
    requires After(cfg, es).Some? && RegularRun(cfg, es, c) && DistinctTimes(cfg, es)
    ensures ResumableRun(cfg, es, c)
    ensures var st := After(cfg, es).value; IsClientPublic(st, c) ==> Climbs(st, c)
  {
    hide Enabled, Next, Regular, FlightOk, Marked, ListsKnown, Invariant, CleanRun, Climbs, Resumable;
    if es == [] {
      NothingYet(c);
    } else {
      var front, e := es[..|es| - 1], es[|es| - 1];
      var st := After(cfg, front).value;
      DistinctTimesResumable(cfg, front, c);
      PublicDelay(cfg, front);
      ClimbsResumable(cfg, st, e, c);
      if c in st.infos {
        if IsClientPublic(Next(cfg, st, e), c) {
          PublicBefore(cfg, st, e, c);
          RegularIsClean(cfg, front, c);
          CleanInOrder(cfg, front, c);
          DistinctAbove(cfg, front, st.clock - cfg.delay);
          ClimbsNext(cfg, st, e, c);
        }
      } else if IsClientPublic(Next(cfg, st, e), c) {
        NewFlight(cfg, st, e, c);
        NothingClimbs(Next(cfg, st, e), c);
      }
    }
  }

  lemma ClimbsResumable(cfg: Config, st: State, e: Event, c: Client)
    requires Invariant(cfg, st) && Enabled(st, e) && (IsClientPublic(st, c) ==> Climbs(st, c))
    ensures Resumable(st, e, c)
  {
    InvariantParts(cfg, st);
    hide Received, Invariant, BufferOk, RoundOk, Distinct;
  }

  lemma NothingClimbs(st: State, c: Client)
    requires c in st.infos && st.infos[c].lastSent == 0 && Replaying(st, c) == []
    ensures Climbs(st, c)
  {
    hide Received, Replaying;
  }

  /** A run without a lost replay send to the client is resumable for it. */
  lemma {:induction false} FaultlessResumable(cfg: Config, es: seq<Event>, c: Client)
    requires After(cfg, es).Some? && forall i | 0 <= i < |es| :: es[i] != SendReplay(c, Lost)
    ensures ResumableRun(cfg, es, c)
  {
    hide Enabled, Next;
    if es != [] { FaultlessResumable(cfg, es[..|es| - 1], c); }
  }
}
