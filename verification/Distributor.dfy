/**
 * Delayed public delivery of wss_distributor.py: one step per stretch of code between awaits,
 * interleaved in any order.
 */
module Distributor {
  import opened Optional

  type Client = nat

  /** A broadcast with its timestamp and its number in broadcast order. */
  datatype Message = Message(ts: int, id: nat)

  datatype Tier = Public | Paying

  datatype ClientInfo = ClientInfo(tier: Tier, lastSent: int)

  datatype Delivery = Delivery(client: Client, msg: Message, at: int, replayed: bool)

  /**
   * The push task: asleep, or in a round with the clients still to serve, the messages left for the current one and
   * the clients that the round drops at its end.
   */
  datatype Push =
    | Asleep
    | Round(cutoff: int, todo: seq<Client>, current: Option<Client>, pending: seq<Message>, dead: set<Client>)

  /** A send returns, or raises with the message lost, or raises although the message went out, as a timeout can. */
  datatype Outcome = Through | Lost | Late

  /**
   * infos remembers every client ever registered, as the tasks' references do; active is the clients dictionary.
   * sent records what left the server.
   */
  datatype State = State(clock: int, count: nat, buf: seq<Message>, infos: map<Client, ClientInfo>, active: set<Client>,
                         replays: map<Client, seq<Message>>, push: Push, sent: seq<Delivery>)

  datatype Config = Config(delay: int, maxlen: nat)

  datatype Event =
    | Tick(d: nat)
    | Broadcast
    | SendPaying(client: Client, msg: Message)
    | Register(client: Client, tier: Tier)
    | StartReplay(client: Client)
    | SendReplay(client: Client, outcome: Outcome)
    | StartPush(todo: seq<Client>)
    | NextClient
    | SendPush(outcome: Outcome)
    | Disconnect(client: Client)

  // ---------- the steps ----------

  /** `deque(maxlen)`: appending to a full buffer drops the oldest message. */
  function Append(buf: seq<Message>, m: Message, maxlen: nat): seq<Message> {
    var b := buf + [m];
    if |b| > maxlen then b[1..] else b
  }

  /** The replay loop stops at the first message that is too young. */
  function OldPrefix(buf: seq<Message>, cutoff: int): seq<Message> {
    if buf == [] || buf[0].ts > cutoff then [] else [buf[0]] + OldPrefix(buf[1..], cutoff)
  }

  /** `[m for m in buf if last < ts <= cutoff]`. */
  function Due(buf: seq<Message>, last: int, cutoff: int): seq<Message> {
    if buf == [] then []
    else if last < buf[0].ts <= cutoff then [buf[0]] + Due(buf[1..], last, cutoff)
    else Due(buf[1..], last, cutoff)
  }

  ghost predicate Distinct(s: seq<Client>) { forall i, j | 0 <= i < j < |s| :: s[i] != s[j] }

  ghost predicate IsClientPublic(st: State, c: Client) { c in st.infos && st.infos[c].tier == Public }

  /** A round needs distinct registered public clients. */
  ghost predicate Servable(st: State, todo: seq<Client>) {
    Distinct(todo) && forall i | 0 <= i < |todo| :: todo[i] in st.active && IsClientPublic(st, todo[i])
  }

  /** May the event happen now? Time only moves forward and a connection registers once. */
  ghost predicate Enabled(st: State, e: Event) {
    match e
    case Tick(_) => true
    case Broadcast => true
    case SendPaying(c, m) => c in st.infos && st.infos[c].tier != Public && m.ts <= st.clock
    case Register(c, _) => c !in st.infos
    case StartReplay(c) => IsClientPublic(st, c)
    case SendReplay(c, _) => c in st.infos && c in st.replays && st.replays[c] != []
    case StartPush(todo) => st.push == Asleep && Servable(st, todo)
    case NextClient => st.push.Round? && st.push.current == None && (st.push.todo == [] || st.push.todo[0] in st.infos)
    case SendPush(_) => st.push.Round? && st.push.current.Some? && st.push.current.value in st.infos
    case Disconnect(_) => true
  }

  /** A message that went out. */
  function Record(st: State, c: Client, m: Message, replayed: bool): State {
    st.(sent := st.sent + [Delivery(c, m, st.clock, replayed)])
  }

  /** A send that returned; the marker moves while the client is registered. */
  function Deliver(st: State, c: Client, m: Message, replayed: bool): State
    requires c in st.infos
  {
    Record(st, c, m, replayed).(
        infos := if c in st.active then st.infos[c := st.infos[c].(lastSent := m.ts)] else st.infos)
  }

  /** The next client of the round, or its end, which drops the clients whose sends failed. */
  function Serve(st: State): State
    requires st.push.Round? && (st.push.todo == [] || st.push.todo[0] in st.infos)
  {
    var r := st.push;
    if r.todo == [] then st.(push := Asleep, active := st.active - r.dead)
    else
      var c := r.todo[0];
      st.(push := Round(r.cutoff, r.todo[1..], Some(c), Due(st.buf, st.infos[c].lastSent, r.cutoff), r.dead))
  }

  /** The turn of the current client is over. */
  function Leave(r: Push, dead: set<Client>): Push
    requires r.Round?
  {
    r.(current := None, pending := [], dead := dead)
  }

  /** One send to the current client; a failure, or a client gone from the dictionary, ends its turn. */
  function PushOne(st: State, outcome: Outcome): State
    requires st.push.Round? && st.push.current.Some? && st.push.current.value in st.infos
  {
    var r := st.push;
    var c := r.current.value;
    if r.pending == [] then st.(push := Leave(r, r.dead))
    else
      match outcome
      case Lost => st.(push := Leave(r, r.dead + {c}))
      case Late => Record(st, c, r.pending[0], false).(push := Leave(r, r.dead + {c}))
      case Through =>
        Deliver(st, c, r.pending[0], false).(push :=
          if c in st.active then r.(pending := r.pending[1..]) else Leave(r, r.dead + {c}))
  }

  /** One send of the replay; any failure ends it. */
  function ReplayOne(st: State, c: Client, outcome: Outcome): State
    requires c in st.infos && c in st.replays && st.replays[c] != []
  {
    var m, rest := st.replays[c][0], st.replays[c][1..];
    match outcome
    case Lost => st.(replays := st.replays[c := []])
    case Late => Record(st, c, m, true).(replays := st.replays[c := []])
    case Through => Deliver(st, c, m, true).(replays := st.replays[c := rest])
  }

  ghost function Next(cfg: Config, st: State, e: Event): State
    requires Enabled(st, e)
  {
    match e
    case Tick(d) => st.(clock := st.clock + d)
    case Broadcast =>
      st.(count := st.count + 1, buf := Append(st.buf, Message(st.clock, st.count), cfg.maxlen))
    case SendPaying(c, m) => Deliver(st, c, m, false)
    case Register(c, tier) => st.(infos := st.infos[c := ClientInfo(tier, 0)], active := st.active + {c})
    case StartReplay(c) => st.(replays := st.replays[c := OldPrefix(st.buf, st.clock - cfg.delay)])
    case SendReplay(c, outcome) => ReplayOne(st, c, outcome)
    case StartPush(todo) => if todo == [] then st else st.(push := Round(st.clock - cfg.delay, todo, None, [], {}))
    case NextClient => Serve(st)
    case SendPush(outcome) => PushOne(st, outcome)
    case Disconnect(c) => st.(active := st.active - {c})
  }

  function Start(): State { State(0, 0, [], map[], {}, map[], Asleep, []) }

  /** The state after a run, None when some event was not enabled. */
  ghost function After(cfg: Config, es: seq<Event>): Option<State> {
    if es == [] then Some(Start())
    else
      match After(cfg, es[..|es| - 1])
      case None => None
      case Some(st) => if Enabled(st, es[|es| - 1]) then Some(Next(cfg, st, es[|es| - 1])) else None
  }

  lemma AfterExtend(cfg: Config, es: seq<Event>, e: Event, st: State)
    requires After(cfg, es) == Some(st) && Enabled(st, e)
    ensures After(cfg, es + [e]) == Some(Next(cfg, st, e))
  {
    assert (es + [e])[..|es + [e]| - 1] == es;
  }

  // ---------- what every step keeps ----------

  /** No step forgets a client or changes its tier. */
  ghost predicate Grown(st: State, r: State) {
    forall c | c in st.infos :: c in r.infos && r.infos[c].tier == st.infos[c].tier
  }

  lemma NextGrown(cfg: Config, st: State, e: Event)
    requires Enabled(st, e)
    ensures Grown(st, Next(cfg, st, e))
  {
    hide OldPrefix, Due, Append, Distinct;
  }

  ghost predicate ReplaysPublic(st: State) { forall c | c in st.replays :: IsClientPublic(st, c) }

  /** A round serves each of its clients once, none after a failure, and between clients nothing is left over. */
  ghost predicate RoundOk(st: State) {
    st.push.Round? ==>
      && Distinct(st.push.todo)
      && (forall i | 0 <= i < |st.push.todo| :: IsClientPublic(st, st.push.todo[i]) && st.push.todo[i] !in st.push.dead)
      && (st.push.current.Some? ==>
            && IsClientPublic(st, st.push.current.value)
            && st.push.current.value !in st.push.todo && st.push.current.value !in st.push.dead)
      && (st.push.current.None? ==> st.push.pending == [])
  }

  /** Replays and rounds refer to known public clients. */
  ghost predicate Shaped(st: State) { st.active <= st.infos.Keys && ReplaysPublic(st) && RoundOk(st) }

  lemma TodoTail(todo: seq<Client>)
    requires Distinct(todo) && todo != []
    ensures Distinct(todo[1..]) && todo[0] !in todo[1..]
  {
  }

  lemma RoundGrown(st: State, r: State)
    requires RoundOk(st) && Grown(st, r) && r.push == st.push
    ensures RoundOk(r)
  {
    hide Distinct;
  }

  lemma ReplaysGrown(st: State, r: State)
    requires ReplaysPublic(st) && Grown(st, r) && r.replays.Keys <= st.replays.Keys
    ensures ReplaysPublic(r)
  {
    forall c | c in r.replays ensures IsClientPublic(r, c) {
      assert c in st.replays.Keys;
    }
  }

  lemma ServeShaped(st: State)
    requires RoundOk(st) && Enabled(st, NextClient)
    ensures RoundOk(Serve(st))
  {
    if st.push.todo != [] { TodoTail(st.push.todo); }
    hide Distinct, Due;
  }

  lemma PushOneShaped(cfg: Config, st: State, outcome: Outcome)
    requires RoundOk(st) && Enabled(st, SendPush(outcome))
    ensures RoundOk(PushOne(st, outcome))
  {
    NextGrown(cfg, st, SendPush(outcome));
    hide Distinct, Deliver;
  }

  lemma NextRound(cfg: Config, st: State, e: Event)
    requires RoundOk(st) && Enabled(st, e)
    ensures RoundOk(Next(cfg, st, e))
  {
    NextGrown(cfg, st, e);
    match e
    case NextClient => ServeShaped(st);
    case SendPush(outcome) => PushOneShaped(cfg, st, outcome);
    case StartPush(todo) => hide Distinct;
    case _ =>
      PushUntouched(cfg, st, e);
      RoundGrown(st, Next(cfg, st, e));
  }

  lemma PushUntouched(cfg: Config, st: State, e: Event)
    requires Enabled(st, e) && !e.NextClient? && !e.SendPush? && !e.StartPush?
    ensures Next(cfg, st, e).push == st.push
  {
    hide OldPrefix, Append;
  }

  lemma NextReplays(cfg: Config, st: State, e: Event)
    requires ReplaysPublic(st) && Enabled(st, e)
    ensures ReplaysPublic(Next(cfg, st, e))
  {
    NextGrown(cfg, st, e);
    if e.StartReplay? {
      hide OldPrefix;
    } else {
      ReplayKeys(cfg, st, e);
      ReplaysGrown(st, Next(cfg, st, e));
    }
  }

  lemma ReplayKeys(cfg: Config, st: State, e: Event)
    requires Enabled(st, e) && !e.StartReplay?
    ensures Next(cfg, st, e).replays.Keys <= st.replays.Keys
  {
    hide Append, Due, Distinct;
  }

  lemma NextActive(cfg: Config, st: State, e: Event)
    requires Enabled(st, e) && st.active <= st.infos.Keys
    ensures Next(cfg, st, e).active <= Next(cfg, st, e).infos.Keys
  {
    NextGrown(cfg, st, e);
    hide OldPrefix, Due, Append, Distinct;
  }

  lemma NextShaped(cfg: Config, st: State, e: Event)
    requires Shaped(st) && Enabled(st, e)
    ensures Shaped(Next(cfg, st, e))
  {
    hide RoundOk, ReplaysPublic, Next, Enabled;
    NextActive(cfg, st, e);
    NextReplays(cfg, st, e);
    NextRound(cfg, st, e);
  }

  // ---------- public delay ----------

  /** In broadcast order, hence in time order. */
  ghost predicate Sorted(s: seq<Message>) {
    forall i, j | 0 <= i < j < |s| :: s[i].ts <= s[j].ts && s[i].id < s[j].id
  }

  ghost predicate OldEnough(s: seq<Message>, cutoff: int) { forall i | 0 <= i < |s| :: s[i].ts <= cutoff }

  ghost predicate BufferOk(cfg: Config, st: State) {
    && Sorted(st.buf) && |st.buf| <= cfg.maxlen
    && forall i | 0 <= i < |st.buf| :: st.buf[i].ts <= st.clock && st.buf[i].id < st.count
  }

  ghost predicate DelayOk(cfg: Config, st: State, d: Delivery) {
    && d.client in st.infos && d.at <= st.clock
    && (st.infos[d.client].tier == Public ==> d.msg.ts + cfg.delay <= d.at)
  }

  ghost predicate SentOk(cfg: Config, st: State) { forall i | 0 <= i < |st.sent| :: DelayOk(cfg, st, st.sent[i]) }

  ghost predicate ReplaysOld(cfg: Config, st: State) {
    forall c | c in st.replays :: OldEnough(st.replays[c], st.clock - cfg.delay)
  }

  ghost predicate PendingOld(cfg: Config, st: State) {
    st.push.Round? ==> st.push.cutoff <= st.clock - cfg.delay && OldEnough(st.push.pending, st.push.cutoff)
  }

  /** Everything waiting to be sent to a public client is old enough, and everything sent to one was. */
  ghost predicate Delayed(cfg: Config, st: State) { ReplaysOld(cfg, st) && PendingOld(cfg, st) && SentOk(cfg, st) }

  ghost predicate Invariant(cfg: Config, st: State) { Shaped(st) && BufferOk(cfg, st) && Delayed(cfg, st) }

  lemma {:induction false} OldPrefixOld(buf: seq<Message>, cutoff: int)
    ensures OldEnough(OldPrefix(buf, cutoff), cutoff)
  {
    if buf != [] && buf[0].ts <= cutoff { OldPrefixOld(buf[1..], cutoff); }
  }

  lemma {:induction false} DueOld(buf: seq<Message>, last: int, cutoff: int)
    ensures OldEnough(Due(buf, last, cutoff), cutoff)
  {
    if buf != [] { DueOld(buf[1..], last, cutoff); }
  }

  lemma BroadcastBuffer(cfg: Config, st: State)
    requires BufferOk(cfg, st)
    ensures BufferOk(cfg, Next(cfg, st, Broadcast))
  {
    hide OldPrefix, Due, Distinct;
  }

  /** The buffer holds the latest broadcasts, as many as there were or as fit, numbered without a gap. */
  ghost predicate BufferIsTail(cfg: Config, st: State) {
    && |st.buf| == (if st.count < cfg.maxlen then st.count else cfg.maxlen)
    && forall i | 0 <= i < |st.buf| :: st.buf[i].id == st.count - |st.buf| + i
  }

  lemma BroadcastTail(cfg: Config, st: State)
    requires BufferIsTail(cfg, st)
    ensures BufferIsTail(cfg, Next(cfg, st, Broadcast))
  {
    hide OldPrefix, Due, Distinct;
  }

  lemma NextTail(cfg: Config, st: State, e: Event)
    requires BufferIsTail(cfg, st) && Enabled(st, e)
    ensures BufferIsTail(cfg, Next(cfg, st, e))
  {
    hide OldPrefix, Due, Append, Distinct;
    if e.Broadcast? { BroadcastTail(cfg, st); }
  }

  /** After every run the buffer is exactly the latest broadcasts. */
  lemma {:induction false} BufferKeepsLatest(cfg: Config, es: seq<Event>)
    requires After(cfg, es).Some?
    ensures BufferIsTail(cfg, After(cfg, es).value)
  {
    hide Enabled, Next;
    if es != [] {
      var front := es[..|es| - 1];
      BufferKeepsLatest(cfg, front);
      NextTail(cfg, After(cfg, front).value, es[|es| - 1]);
    }
  }

  lemma NextBuffer(cfg: Config, st: State, e: Event)
    requires BufferOk(cfg, st) && Enabled(st, e)
    ensures BufferOk(cfg, Next(cfg, st, e))
  {
    hide OldPrefix, Due, Append, Sorted, Distinct;
    if e.Broadcast? { BroadcastBuffer(cfg, st); }
  }

  lemma ClockRuns(cfg: Config, st: State, e: Event)
    requires Enabled(st, e)
    ensures Next(cfg, st, e).clock >= st.clock
  {
    hide OldPrefix, Due, Append, Distinct;
  }

  lemma NextReplaysOld(cfg: Config, st: State, e: Event)
    requires ReplaysOld(cfg, st) && Enabled(st, e)
    ensures ReplaysOld(cfg, Next(cfg, st, e))
  {
    if e.StartReplay? { OldPrefixOld(st.buf, st.clock - cfg.delay); }
    hide OldPrefix, Due, Append, Distinct;
  }

  lemma NextPendingOld(cfg: Config, st: State, e: Event)
    requires PendingOld(cfg, st) && Enabled(st, e)
    ensures PendingOld(cfg, Next(cfg, st, e))
  {
    if e.NextClient? && st.push.todo != [] { DueOld(st.buf, st.infos[st.push.todo[0]].lastSent, st.push.cutoff); }
    hide OldPrefix, Due, Append, Distinct;
  }

  /** The delivery that an event makes, if it makes one. */
  ghost function Made(st: State, e: Event): Option<Delivery>
    requires Enabled(st, e)
  {
    match e
    case SendPaying(c, m) => Some(Delivery(c, m, st.clock, false))
    case SendReplay(c, outcome) =>
      if outcome != Lost then Some(Delivery(c, st.replays[c][0], st.clock, true)) else None
    case SendPush(outcome) =>
      if outcome != Lost && st.push.pending != [] then
        Some(Delivery(st.push.current.value, st.push.pending[0], st.clock, false))
      else None
    case _ => None
  }

  lemma NextSent(cfg: Config, st: State, e: Event)
    requires Enabled(st, e)
    ensures Next(cfg, st, e).sent == if Made(st, e).Some? then st.sent + [Made(st, e).value] else st.sent
  {
    hide OldPrefix, Due, Append, Distinct;
  }

  /** What is sent now was old enough while it waited. */
  lemma MadeOk(cfg: Config, st: State, e: Event)
    requires Shaped(st) && ReplaysOld(cfg, st) && PendingOld(cfg, st) && Enabled(st, e) && Made(st, e).Some?
    ensures DelayOk(cfg, st, Made(st, e).value)
  {
    hide Distinct, ReplaysPublic, RoundOk;
  }

  lemma DelayStays(cfg: Config, st: State, r: State, d: Delivery)
    requires Grown(st, r) && st.clock <= r.clock && DelayOk(cfg, st, d)
    ensures DelayOk(cfg, r, d)
  {
  }

  lemma NextSentOk(cfg: Config, st: State, e: Event)
    requires Shaped(st) && Delayed(cfg, st) && Enabled(st, e)
    ensures SentOk(cfg, Next(cfg, st, e))
  {
    hide Next, Made, Enabled, Grown, DelayOk, Shaped, ReplaysOld, PendingOld;
    NextSent(cfg, st, e);
    NextGrown(cfg, st, e);
    ClockRuns(cfg, st, e);
    if Made(st, e).Some? { MadeOk(cfg, st, e); }
    var r := Next(cfg, st, e);
    forall i | 0 <= i < |r.sent| ensures DelayOk(cfg, r, r.sent[i]) {
      DelayStays(cfg, st, r, r.sent[i]);
    }
  }

  lemma NextDelayed(cfg: Config, st: State, e: Event)
    requires Shaped(st) && Delayed(cfg, st) && Enabled(st, e)
    ensures Delayed(cfg, Next(cfg, st, e))
  {
    NextReplaysOld(cfg, st, e);
    NextPendingOld(cfg, st, e);
    NextSentOk(cfg, st, e);
    hide Next, Enabled, ReplaysOld, PendingOld, SentOk;
  }

  lemma StartInvariant(cfg: Config)
    ensures Invariant(cfg, Start())
  {
  }

  /**
   * Under every interleaving of broadcasts, registrations, replays, pushes, failures and disconnects the buffer
   * stays bounded and in order and no public client is ever sent a message younger than the delay.
   */
  lemma {:induction false} PublicDelay(cfg: Config, es: seq<Event>)
    requires After(cfg, es).Some?
    ensures Invariant(cfg, After(cfg, es).value)
  {
    hide Shaped, BufferOk, Delayed, Enabled, Next;
    if es == [] {
      StartInvariant(cfg);
    } else {
      var st, e := After(cfg, es[..|es| - 1]).value, es[|es| - 1];
      PublicDelay(cfg, es[..|es| - 1]);
      NextShaped(cfg, st, e);
      NextBuffer(cfg, st, e);
      NextDelayed(cfg, st, e);
    }
  }

  // ---------- what the two loops list ----------

  /** A push round takes exactly the buffered messages past the marker that are old enough. */
  lemma {:induction false} DueExact(buf: seq<Message>, last: int, cutoff: int)
    ensures forall m :: m in Due(buf, last, cutoff) <==> m in buf && last < m.ts <= cutoff
  {
    if buf != [] {
      DueExact(buf[1..], last, cutoff);
      assert buf == [buf[0]] + buf[1..];
    }
  }

  /** A replay takes exactly the buffered messages that are old enough, the buffer being in time order. */
  lemma {:induction false} OldPrefixExact(buf: seq<Message>, cutoff: int)
    requires Sorted(buf)
    ensures OldPrefix(buf, cutoff) <= buf
    ensures forall m :: m in OldPrefix(buf, cutoff) <==> m in buf && m.ts <= cutoff
  {
    if buf != [] {
      assert buf == [buf[0]] + buf[1..];
      if buf[0].ts <= cutoff { OldPrefixExact(buf[1..], cutoff); }
    }
  }

  lemma HeadFirst(buf: seq<Message>, m: Message)
    requires Sorted(buf) && buf != [] && m in buf[1..]
    ensures buf[0].ts <= m.ts && buf[0].id < m.id
  {
  }

  /** Both lists are in broadcast order. */
  lemma {:induction false} DueSorted(buf: seq<Message>, last: int, cutoff: int)
    requires Sorted(buf)
    ensures Sorted(Due(buf, last, cutoff))
  {
    if buf != [] {
      DueSorted(buf[1..], last, cutoff);
      DueExact(buf[1..], last, cutoff);
      var rest := Due(buf[1..], last, cutoff);
      forall i | 0 <= i < |rest| ensures buf[0].ts <= rest[i].ts && buf[0].id < rest[i].id {
        assert rest[i] in rest;
        HeadFirst(buf, rest[i]);
      }
    }
  }

  lemma OldPrefixSorted(buf: seq<Message>, cutoff: int)
    requires Sorted(buf)
    ensures Sorted(OldPrefix(buf, cutoff))
  {
    OldPrefixExact(buf, cutoff);
    hide OldPrefix;
  }
}
