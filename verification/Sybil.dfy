/** Cross-IP cohorts of sybilCluster.ts: the record map, the cohort map and how flags spread. */
module Sybil {
  import opened Optional
  import opened Welford

  /** An address hashed with the salt of the day. */
  type Hash = string

  const COHORT_KL_THRESHOLD := 0.15
  const MAX_RECORDS := 10000
  const TTL_MS := 86400000
  const STABLE := 5

  datatype Record = Record(profile: Profile, cohort: Option<nat>, flagged: bool, lastSeen: int)

  /** Members in insertion order, without repeats. */
  datatype Cohort = Cohort(id: nat, members: seq<Hash>)

  /** Cohorts in insertion order; they are only ever deleted all at once. */
  datatype Cluster = Cluster(records: map<Hash, Record>, cohorts: seq<Cohort>, counter: nat)

  type Distance = (Profile, Profile) -> real

  const EMPTY_CLUSTER := Cluster(map[], [], 0)

  // ---------- the code ----------

  function Without(members: seq<Hash>, h: Hash): (r: seq<Hash>)
    ensures forall g :: g in r <==> g in members && g != h
  {
    if members == [] then []
    else
      var rest := Without(members[1..], h);
      if members[0] == h then rest else [members[0]] + rest
  }

  /** `Set.add`. */
  function With(members: seq<Hash>, h: Hash): (r: seq<Hash>)
    ensures forall g :: g in r <==> g in members || g == h
  {
    if h in members then members else members + [h]
  }

  /** First member that still has a record with enough samples. */
  function Representative(records: map<Hash, Record>, members: seq<Hash>): (r: Option<Hash>)
    ensures r.Some? ==> r.value in members && r.value in records && records[r.value].profile.count >= STABLE
    ensures r.None? ==> forall g | g in members && g in records :: records[g].profile.count < STABLE
  {
    if members == [] then None
    else if members[0] in records && records[members[0]].profile.count >= STABLE then Some(members[0])
    else Representative(records, members[1..])
  }

  /** Does the profile belong to cohort i? */
  predicate Fits(kl: Distance, cl: Cluster, p: Profile, i: nat)
    requires i < |cl.cohorts|
  {
    var rep := Representative(cl.records, cl.cohorts[i].members);
    rep.Some? && kl(p, cl.records[rep.value].profile) < COHORT_KL_THRESHOLD
  }

  /** First fitting cohort from index i on. */
  function FindCohort(kl: Distance, cl: Cluster, p: Profile, i: nat): (r: Option<nat>)
    requires i <= |cl.cohorts|
    ensures r.Some? ==> i <= r.value < |cl.cohorts|
    decreases |cl.cohorts| - i
  {
    if i == |cl.cohorts| then None
    else if Fits(kl, cl, p, i) then Some(i)
    else FindCohort(kl, cl, p, i + 1)
  }

  /** Remove h from the cohort with the given id, if there is one. */
  function Leave(cohorts: seq<Cohort>, id: nat, h: Hash): (r: seq<Cohort>)
    ensures |r| == |cohorts|
    ensures forall i | 0 <= i < |r| ::
      r[i] == if cohorts[i].id == id then Cohort(id, Without(cohorts[i].members, h)) else cohorts[i]
  {
    seq(|cohorts|, i requires 0 <= i < |cohorts| =>
      if cohorts[i].id == id then Cohort(id, Without(cohorts[i].members, h)) else cohorts[i])
  }

  function Assign(kl: Distance, cl: Cluster, h: Hash): Cluster
    requires h in cl.records
  {
    var record := cl.records[h];
    if record.profile.count < STABLE then cl
    else
      match FindCohort(kl, cl, record.profile, 0)
      case Some(i) =>
        var id := cl.cohorts[i].id;
        var left := if record.cohort.Some? && record.cohort.value != id then Leave(cl.cohorts, record.cohort.value, h)
                    else cl.cohorts;
        cl.(records := cl.records[h := record.(cohort := Some(id))],
            cohorts := left[i := Cohort(id, With(left[i].members, h))])
      case None =>
        var id := cl.counter + 1;
        Cluster(cl.records[h := record.(cohort := Some(id))], cl.cohorts + [Cohort(id, [h])], id)
  }

  predicate Expired(record: Record, now: int) { now - record.lastSeen > TTL_MS }

  /** Remove one expired record from its cohort and from the records. */
  function Drop(cl: Cluster, h: Hash): Cluster
    requires h in cl.records
  {
    var record := cl.records[h];
    cl.(records := cl.records - {h},
        cohorts := if record.cohort.Some? then Leave(cl.cohorts, record.cohort.value, h) else cl.cohorts)
  }

  /** Member g leaves the cohort with the given id when its expired record, already visited, points there. */
  predicate Leaves(cl: Cluster, now: int, visited: set<Hash>, id: nat, g: Hash) {
    g in visited && g in cl.records && Expired(cl.records[g], now) && cl.records[g].cohort == Some(id)
  }

  function Remaining(cl: Cluster, now: int, visited: set<Hash>, id: nat, members: seq<Hash>): (r: seq<Hash>)
    ensures forall g :: g in r <==> g in members && !Leaves(cl, now, visited, id, g)
  {
    if members == [] then []
    else
      var rest := Remaining(cl, now, visited, id, members[1..]);
      if Leaves(cl, now, visited, id, members[0]) then rest else [members[0]] + rest
  }

  /** The cluster once the eviction loop has visited the given records. */
  function EvictVisited(cl: Cluster, now: int, visited: set<Hash>): Cluster {
    cl.(records := map h | h in cl.records && !(h in visited && Expired(cl.records[h], now)) :: cl.records[h],
        cohorts := seq(|cl.cohorts|, i requires 0 <= i < |cl.cohorts| =>
          Cohort(cl.cohorts[i].id, Remaining(cl, now, visited, cl.cohorts[i].id, cl.cohorts[i].members))))
  }

  function Evict(cl: Cluster, now: int): Cluster { EvictVisited(cl, now, cl.records.Keys) }

  /** The record after new samples; created on first sight. */
  function Absorb(records: map<Hash, Record>, h: Hash, samples: seq<real>, now: int): Record {
    if h in records then records[h].(profile := UpdateAll(records[h].profile, samples), lastSeen := now)
    else Record(UpdateAll(EMPTY, samples), None, false, now)
  }

  function Ingest(kl: Distance, cl: Cluster, h: Hash, samples: seq<real>, now: int): Cluster {
    var kept := if |cl.records| >= MAX_RECORDS then Evict(cl, now) else cl;
    Assign(kl, kept.(records := kept.records[h := Absorb(kept.records, h, samples, now)]), h)
  }

  /** How many members still have a record. */
  function Present(records: map<Hash, Record>, members: seq<Hash>): nat {
    if members == [] then 0
    else Present(records, members[..|members| - 1]) + if members[|members| - 1] in records then 1 else 0
  }

  function FlagMembers(records: map<Hash, Record>, members: seq<Hash>): (r: map<Hash, Record>)
    ensures r.Keys == records.Keys
    ensures forall g | g in records :: r[g] == if g in members then records[g].(flagged := true) else records[g]
  {
    map g | g in records :: if g in members then records[g].(flagged := true) else records[g]
  }

  /** The members of the cohort with the given id. */
  function MembersOf(cohorts: seq<Cohort>, id: nat): Option<seq<Hash>> {
    if cohorts == [] then None
    else if cohorts[0].id == id then Some(cohorts[0].members)
    else MembersOf(cohorts[1..], id)
  }

  /** Flag a record and its whole cohort; the count the code returns. */
  function Flag(cl: Cluster, h: Hash): (Cluster, nat) {
    if h !in cl.records then (cl, 0)
    else
      var own := FlagMembers(cl.records, [h]);
      match cl.records[h].cohort
      case None => (cl.(records := own), 1)
      case Some(id) =>
        match MembersOf(cl.cohorts, id)
        case None => (cl.(records := own), 1)
        case Some(members) => (cl.(records := FlagMembers(own, members)), Present(cl.records, members))
  }

  function IsFlagged(cl: Cluster, h: Hash): bool { h in cl.records && cl.records[h].flagged }

  // ---------- the index ----------

  /** A record with a cohort is a member of it and has enough samples; ids are 1, 2, ... in order. */
  ghost predicate Indexed(cl: Cluster) {
    && cl.counter == |cl.cohorts|
    && (forall i | 0 <= i < |cl.cohorts| :: cl.cohorts[i].id == i + 1)
    && (forall h | h in cl.records :: Placed(cl, h))
  }

  ghost predicate Placed(cl: Cluster, h: Hash)
    requires h in cl.records
  {
    cl.records[h].cohort.Some? ==>
      var c := cl.records[h].cohort.value;
      && 1 <= c <= |cl.cohorts| && h in cl.cohorts[c - 1].members
      && cl.records[h].profile.count >= STABLE
  }

  lemma AssignIds(kl: Distance, cl: Cluster, h: Hash)
    requires Indexed(cl) && h in cl.records
    ensures var r := Assign(kl, cl, h);
      r.counter == |r.cohorts| && forall i | 0 <= i < |r.cohorts| :: r.cohorts[i].id == i + 1
  {
    hide FindCohort, Placed;
  }

  /** Nobody but h is taken off a list. */
  lemma AssignKeeps(kl: Distance, cl: Cluster, h: Hash, k: nat, g: Hash)
    requires h in cl.records && k < |cl.cohorts| && g != h && g in cl.cohorts[k].members
    ensures k < |Assign(kl, cl, h).cohorts| && g in Assign(kl, cl, h).cohorts[k].members
  {
    hide FindCohort;
  }

  lemma AssignRecords(kl: Distance, cl: Cluster, h: Hash)
    requires h in cl.records
    ensures var r := Assign(kl, cl, h);
      r.records.Keys == cl.records.Keys && forall g | g in cl.records && g != h :: r.records[g] == cl.records[g]
  {
    hide FindCohort, Leave;
  }

  lemma AssignOwn(kl: Distance, cl: Cluster, h: Hash)
    requires Indexed(cl) && h in cl.records
    ensures h in Assign(kl, cl, h).records && Placed(Assign(kl, cl, h), h)
  {
    hide FindCohort, Leave;
    assert Placed(cl, h);
  }

  lemma AssignPlaced(kl: Distance, cl: Cluster, h: Hash, g: Hash)
    requires Indexed(cl) && h in cl.records && g in cl.records
    ensures Assign(kl, cl, h).records.Keys == cl.records.Keys && Placed(Assign(kl, cl, h), g)
  {
    hide Assign;
    AssignRecords(kl, cl, h);
    assert Placed(cl, g);
    if g == h {
      AssignOwn(kl, cl, h);
    } else if cl.records[g].cohort.Some? {
      AssignKeeps(kl, cl, h, cl.records[g].cohort.value - 1, g);
    }
  }

  lemma AssignIndexed(kl: Distance, cl: Cluster, h: Hash)
    requires Indexed(cl) && h in cl.records
    ensures Indexed(Assign(kl, cl, h))
  {
    hide Assign, Placed;
    AssignIds(kl, cl, h);
    AssignPlaced(kl, cl, h, h);
    forall g | g in Assign(kl, cl, h).records ensures Placed(Assign(kl, cl, h), g) {
      AssignPlaced(kl, cl, h, g);
    }
  }

  /**
   * A record that changes cohort is taken off its old member list when it joins another cohort, but stays listed
   * when it founds a new one.
   */
  lemma StaysListed(kl: Distance, cl: Cluster, h: Hash)
    requires Indexed(cl) && h in cl.records && Placed(cl, h) && cl.records[h].cohort.Some?
    ensures var own, found := cl.records[h].cohort.value, FindCohort(kl, cl, cl.records[h].profile, 0);
      h in Assign(kl, cl, h).cohorts[own - 1].members <==> found == None || found == Some(own - 1)
  {
    hide FindCohort, Indexed;
    var own, record := cl.records[h].cohort.value, cl.records[h];
    OwnCohort(cl, h);
    match FindCohort(kl, cl, record.profile, 0)
    case None =>
    case Some(i) => OwnCohortAt(cl, i);
  }

  lemma OwnCohort(cl: Cluster, h: Hash)
    requires Indexed(cl) && h in cl.records && cl.records[h].cohort.Some?
    ensures var c := cl.records[h].cohort.value;
      && 1 <= c <= |cl.cohorts| && cl.cohorts[c - 1].id == c && h in cl.cohorts[c - 1].members
      && cl.records[h].profile.count >= STABLE
  {
    assert Placed(cl, h);
  }

  lemma OwnCohortAt(cl: Cluster, i: nat)
    requires Indexed(cl) && i < |cl.cohorts|
    ensures cl.cohorts[i].id == i + 1
  {
  }

  lemma {:induction false} UpdateAllCount(p: Profile, s: seq<real>)
    ensures UpdateAll(p, s).count == p.count + |s|
  {
    if s != [] { UpdateAllCount(p, s[..|s| - 1]); }
  }

  lemma AbsorbIndexed(cl: Cluster, h: Hash, samples: seq<real>, now: int)
    requires Indexed(cl)
    ensures Indexed(cl.(records := cl.records[h := Absorb(cl.records, h, samples, now)]))
  {
    var r := cl.(records := cl.records[h := Absorb(cl.records, h, samples, now)]);
    forall g | g in r.records ensures Placed(r, g) {
      if g in cl.records { assert Placed(cl, g); }
      if g == h && h in cl.records { UpdateAllCount(cl.records[h].profile, samples); }
    }
  }

  lemma EvictIndexed(cl: Cluster, now: int)
    requires Indexed(cl)
    ensures Indexed(Evict(cl, now))
  {
    var r := Evict(cl, now);
    forall g | g in r.records ensures Placed(r, g) {
      assert Placed(cl, g);
    }
  }

  lemma IngestIndexed(kl: Distance, cl: Cluster, h: Hash, samples: seq<real>, now: int)
    requires Indexed(cl)
    ensures Indexed(Ingest(kl, cl, h, samples, now))
  {
    hide Indexed, Assign, Absorb, Evict;
    var kept := if |cl.records| >= MAX_RECORDS then Evict(cl, now) else cl;
    EvictIndexed(cl, now);
    AbsorbIndexed(kept, h, samples, now);
    AssignIndexed(kl, kept.(records := kept.records[h := Absorb(kept.records, h, samples, now)]), h);
  }

  /** Flags aside, the same cluster. */
  ghost predicate SameButFlags(cl: Cluster, r: Cluster) {
    && r.cohorts == cl.cohorts && r.counter == cl.counter && r.records.Keys == cl.records.Keys
    && forall g | g in cl.records ::
         r.records[g].cohort == cl.records[g].cohort && r.records[g].profile == cl.records[g].profile
  }

  lemma SameIndexed(cl: Cluster, r: Cluster)
    requires Indexed(cl) && SameButFlags(cl, r)
    ensures Indexed(r)
  {
    forall g | g in r.records ensures Placed(r, g) {
      assert Placed(cl, g);
    }
  }

  lemma FlagChangesFlags(cl: Cluster, h: Hash)
    ensures SameButFlags(cl, Flag(cl, h).0)
  {
    hide MembersOf, Present;
  }

  lemma FlagIndexed(cl: Cluster, h: Hash)
    requires Indexed(cl)
    ensures Indexed(Flag(cl, h).0)
  {
    hide Flag, Indexed, SameButFlags;
    FlagChangesFlags(cl, h);
    SameIndexed(cl, Flag(cl, h).0);
  }

  lemma {:induction false} MembersOfAt(cohorts: seq<Cohort>, first: nat, id: nat)
    requires forall i | 0 <= i < |cohorts| :: cohorts[i].id == first + i
    requires first <= id < first + |cohorts|
    ensures MembersOf(cohorts, id) == Some(cohorts[id - first].members)
  {
    if id > first { MembersOfAt(cohorts[1..], first + 1, id); }
  }

  /**
   * Contagion: flagging h flags exactly h and the listed members of its cohort, among them every record of that
   * cohort; no flag is lost and no cohort changes.
   */
  lemma FlagSpreads(cl: Cluster, h: Hash)
    requires Indexed(cl) && h in cl.records
    ensures cl.records[h].cohort.Some? ==> 1 <= cl.records[h].cohort.value <= |cl.cohorts|
    ensures var r := Flag(cl, h).0;
      && r.records.Keys == cl.records.Keys && r.records[h].flagged
      && (forall g | g in cl.records && cl.records[h].cohort.Some? && cl.records[g].cohort == cl.records[h].cohort ::
            r.records[g].flagged)
      && (forall g | g in cl.records :: r.records[g].flagged <==>
            || cl.records[g].flagged || g == h
            || (cl.records[h].cohort.Some? && g in cl.cohorts[cl.records[h].cohort.value - 1].members))
      && (forall g | g in cl.records :: r.records[g].cohort == cl.records[g].cohort)
  {
    hide MembersOf, Present;
    if cl.records[h].cohort.Some? {
      var id := cl.records[h].cohort.value;
      assert Placed(cl, h);
      MembersOfAt(cl.cohorts, 1, id);
      forall g | g in cl.records && cl.records[g].cohort == Some(id) ensures g in cl.cohorts[id - 1].members {
        assert Placed(cl, g);
      }
    }
  }

  // ---------- whole runs ----------

  datatype Op = DoIngest(hash: Hash, samples: seq<real>, now: int) | DoFlag(hash: Hash) | DoClear

  function Apply(kl: Distance, cl: Cluster, op: Op): Cluster {
    match op
    case DoIngest(h, samples, now) => Ingest(kl, cl, h, samples, now)
    case DoFlag(h) => Flag(cl, h).0
    case DoClear => EMPTY_CLUSTER
  }

  function RunFrom(kl: Distance, cl: Cluster, ops: seq<Op>): Cluster {
    if ops == [] then cl else Apply(kl, RunFrom(kl, cl, ops[..|ops| - 1]), ops[|ops| - 1])
  }

  /** In every reachable state the index is right. */
  lemma {:induction false} AlwaysIndexed(kl: Distance, cl: Cluster, ops: seq<Op>)
    requires Indexed(cl)
    ensures Indexed(RunFrom(kl, cl, ops))
  {
    hide Indexed, Ingest, Flag;
    if ops != [] {
      var before := RunFrom(kl, cl, ops[..|ops| - 1]);
      AlwaysIndexed(kl, cl, ops[..|ops| - 1]);
      match ops[|ops| - 1]
      case DoIngest(h, samples, now) => IngestIndexed(kl, before, h, samples, now);
      case DoFlag(h) => FlagIndexed(before, h);
      case DoClear => EmptyIndexed();
    }
  }

  lemma EmptyIndexed()
    ensures Indexed(EMPTY_CLUSTER)
  {
  }

  lemma {:induction false} RunFromConcat(kl: Distance, cl: Cluster, past: seq<Op>, later: seq<Op>)
    ensures RunFrom(kl, RunFrom(kl, cl, past), later) == RunFrom(kl, cl, past + later)
    decreases |later|
  {
    hide Apply;
    if later == [] {
      assert past + later == past;
    } else {
      var front := later[..|later| - 1];
      assert (past + later)[..|past + later| - 1] == past + front;
      RunFromConcat(kl, cl, past, front);
    }
  }

  lemma RunExtends(kl: Distance, cl: Cluster, ops: seq<Op>, op: Op)
    ensures RunFrom(kl, cl, ops + [op]) == Apply(kl, RunFrom(kl, cl, ops), op)
  {
    assert (ops + [op])[..|ops + [op]| - 1] == ops;
  }

  /** Does the operation remove the record of g, if it has one? */
  predicate Removes(cl: Cluster, op: Op, g: Hash) {
    match op
    case DoIngest(_, _, now) => |cl.records| >= MAX_RECORDS && g in cl.records && Expired(cl.records[g], now)
    case DoFlag(_) => false
    case DoClear => true
  }

  lemma FlagStays(kl: Distance, cl: Cluster, op: Op, g: Hash)
    requires IsFlagged(cl, g) && !Removes(cl, op, g)
    ensures IsFlagged(Apply(kl, cl, op), g)
  {
    hide FindCohort, MembersOf, Present;
  }

  /** A flag stays through every run that neither clears the cluster nor evicts the record. */
  lemma {:induction false} FlagStaysForRun(kl: Distance, cl: Cluster, ops: seq<Op>, g: Hash)
    requires IsFlagged(cl, g)
    requires forall i | 0 <= i < |ops| :: !Removes(RunFrom(kl, cl, ops[..i]), ops[i], g)
    ensures IsFlagged(RunFrom(kl, cl, ops), g)
  {
    hide IsFlagged, Apply, Removes;
    if ops != [] {
      var front := ops[..|ops| - 1];
      forall i | 0 <= i < |front| ensures !Removes(RunFrom(kl, cl, front[..i]), front[i], g) {
        assert front[..i] == ops[..i] && front[i] == ops[i];
      }
      FlagStaysForRun(kl, cl, front, g);
      FlagStays(kl, RunFrom(kl, cl, front), ops[|ops| - 1], g);
    }
  }

  /** One operation keeps the earlier cohorts' ids and founds at most one cohort, above the counter. */
  lemma IdsKept(kl: Distance, cl: Cluster, op: Op)
    requires Indexed(cl) && !op.DoClear?
    ensures var r := Apply(kl, cl, op);
      && cl.counter <= r.counter <= cl.counter + 1
      && |cl.cohorts| <= |r.cohorts|
      && forall i | 0 <= i < |cl.cohorts| :: r.cohorts[i].id == cl.cohorts[i].id
  {
    hide FindCohort, MembersOf, Present;
    AlwaysIndexed(kl, cl, [op]);
    assert RunFrom(kl, cl, [op]) == Apply(kl, cl, op) by { OneStep(kl, cl, op); }
  }

  /**
   * Over every run without a clear the earlier cohorts stay in place with their ids, the cohorts founded since have
   * ids above the starting counter, and no two cohorts share an id.
   */
  lemma {:induction false} IdsNeverReused(kl: Distance, cl: Cluster, ops: seq<Op>)
    requires Indexed(cl) && forall i | 0 <= i < |ops| :: !ops[i].DoClear?
    ensures var r := RunFrom(kl, cl, ops);
      && |cl.cohorts| <= |r.cohorts| <= |cl.cohorts| + |ops|
      && (forall i | 0 <= i < |cl.cohorts| :: r.cohorts[i].id == cl.cohorts[i].id)
      && (forall i | |cl.cohorts| <= i < |r.cohorts| :: r.cohorts[i].id > cl.counter)
      && (forall i, j | 0 <= i < j < |r.cohorts| :: r.cohorts[i].id != r.cohorts[j].id)
  {
    hide Apply;
    AlwaysIndexed(kl, cl, ops);
    if ops != [] {
      var front := ops[..|ops| - 1];
      IdsNeverReused(kl, cl, front);
      AlwaysIndexed(kl, cl, front);
      IdsKept(kl, RunFrom(kl, cl, front), ops[|ops| - 1]);
    }
  }

  lemma OneStep(kl: Distance, cl: Cluster, op: Op)
    ensures RunFrom(kl, cl, [op]) == Apply(kl, cl, op)
  {
    hide Apply;
    assert [op][..0] == [];
  }
}
