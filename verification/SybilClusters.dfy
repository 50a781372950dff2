/** The class SybilCluster of sybilCluster.ts, its maps updated in place and tied to the cohort model. */
module SybilClusters {
  import opened Contagion
  import opened Optional
  import opened Welford
  import opened Sybil

  class SybilCluster {
    const kl: Distance
    /** `hashIp`: the address hashed with the salt of a day. */
    const hashIp: (string, int) -> Hash
    var records: map<Hash, Record>
    var cohorts: seq<Cohort>
    var counter: nat
    /** Every operation so far. */
    ghost var ops: seq<Op>

    ghost predicate Valid()
      reads this
    {
      Cluster() == RunFrom(kl, EMPTY_CLUSTER, ops)
    }

    function Cluster(): Sybil.Cluster
      reads `records, `cohorts, `counter
    {
      Sybil.Cluster.Cluster(records, cohorts, counter)
    }

    constructor (kl: Distance, hashIp: (string, int) -> Hash)
      ensures Valid() && ops == [] && this.kl == kl && this.hashIp == hashIp
    {
      this.kl, this.hashIp := kl, hashIp;
      records, cohorts, counter := map[], [], 0;
      ops := [];
    }

    /** In every state of the object a record with a cohort is listed there with enough samples, under its own id. */
    lemma AlwaysIndexedHere()
      requires Valid()
      ensures Indexed(Cluster())
    {
      EmptyIndexed();
      AlwaysIndexed(kl, EMPTY_CLUSTER, ops);
    }

    /** In every state of the object a record has a cohort exactly when its profile has at least five samples. */
    lemma AlwaysSettledHere()
      requires Valid()
      ensures Settled(Cluster())
    {
      EmptySettled();
      AlwaysSettled(kl, EMPTY_CLUSTER, ops);
    }

    /** What an ingestion will do to the records of the object. */
    lemma IngestHere(ip: string, samples: seq<real>, now: int, day: int)
      requires Valid()
      ensures var h, r := hashIp(ip, day), Sybil.Ingest(kl, Cluster(), hashIp(ip, day), samples, now);
        && h in r.records && r.records[h].profile == ProfileAfter(Cluster(), h, samples, now)
        && r.records[h].lastSeen == now
        && (r.records[h].cohort.Some? <==> r.records[h].profile.count >= 5)
        && (forall g | g != h :: g in r.records <==> Survives(Cluster(), g, now))
        && (forall g | g != h && Survives(Cluster(), g, now) :: r.records[g] == Cluster().records[g])
    {
      hide Sybil.Ingest, RunFrom, Survives, ProfileAfter;
      var h := hashIp(ip, day);
      AlwaysSettledHere();
      IngestRecords(kl, Cluster(), h, samples, now);
      IngestSettled(kl, Cluster(), h, samples, now);
    }

    /** A record flagged some operations ago still is, unless one of them since removed it. */
    lemma FlagStaysHere(past: nat, g: Hash)
      requires Valid() && past <= |ops| && Sybil.IsFlagged(RunFrom(kl, EMPTY_CLUSTER, ops[..past]), g)
      requires forall i | past <= i < |ops| :: !Removes(RunFrom(kl, EMPTY_CLUSTER, ops[..i]), ops[i], g)
      ensures Sybil.IsFlagged(Cluster(), g)
    {
      hide RunFrom, Sybil.IsFlagged, Removes;
      var start, later := RunFrom(kl, EMPTY_CLUSTER, ops[..past]), ops[past..];
      forall i | 0 <= i < |later| ensures !Removes(RunFrom(kl, start, later[..i]), later[i], g) {
        RunFromConcat(kl, EMPTY_CLUSTER, ops[..past], later[..i]);
        assert ops[..past] + later[..i] == ops[..past + i] && later[i] == ops[past + i];
      }
      FlagStaysForRun(kl, start, later, g);
      RunFromConcat(kl, EMPTY_CLUSTER, ops[..past], later);
      assert ops[..past] + later == ops;
    }

    /**
     * The run gets one ingestion longer: the address has its record with the new samples in, and a cohort exactly
     * from five samples on; the other records stay as they were, unless they are removed as a day old.
     */
    method Ingest(ip: string, samples: seq<real>, now: int, day: int)
      requires Valid()
      modifies this
      ensures Valid() && ops == old(ops) + [DoIngest(hashIp(ip, day), samples, now)]
      ensures Cluster() == Sybil.Ingest(kl, old(Cluster()), hashIp(ip, day), samples, now)
      ensures var h, before := hashIp(ip, day), old(Cluster());
        && h in records && records[h].profile == ProfileAfter(before, h, samples, now) && records[h].lastSeen == now
        && (records[h].cohort.Some? <==> records[h].profile.count >= 5)
        && (forall g | g != h :: g in records <==> Survives(before, g, now))
        && (forall g | g != h && Survives(before, g, now) :: records[g] == before.records[g])
    {
      hide RunFrom, Assign, Evict, Survives, ProfileAfter, Settled;
      IngestHere(ip, samples, now, day);
      RunExtends(kl, EMPTY_CLUSTER, ops, DoIngest(hashIp(ip, day), samples, now));
      ops := ops + [DoIngest(hashIp(ip, day), samples, now)];
      if |records| >= MAX_RECORDS { EvictOld(now); }
      var h := hashIp(ip, day);
      if h !in records {
        records := records[h := Record(UpdateAll(EMPTY, samples), None, false, now)];
      } else {
        var record := records[h];
        records := records[h := record.(profile := UpdateAll(record.profile, samples), lastSeen := now)];
      }
      AssignCohort(h);
    }

    /** Join the first cohort whose representative is near, leaving the old one, or found a new cohort. */
    method AssignCohort(h: Hash)
      requires h in records
      modifies `records, `cohorts, `counter
      ensures Cluster() == Assign(kl, old(Cluster()), h)
    {
      hide Fits;
      var record := records[h];
      if record.profile.count < STABLE { return; }
      for i := 0 to |cohorts|
        invariant Cluster() == old(Cluster())
        invariant FindCohort(kl, Cluster(), record.profile, 0) == FindCohort(kl, Cluster(), record.profile, i)
      {
        var near := IsNear(record.profile, i);
        if near {
          var id := cohorts[i].id;
          if record.cohort.Some? && record.cohort.value != id { cohorts := Leave(cohorts, record.cohort.value, h); }
          records := records[h := record.(cohort := Some(id))];
          cohorts := cohorts[i := Cohort(id, With(cohorts[i].members, h))];
          return;
        }
      }
      counter := counter + 1;
      records := records[h := record.(cohort := Some(counter))];
      cohorts := cohorts + [Cohort(counter, [h])];
    }

    method IsNear(p: Profile, i: nat) returns (near: bool)
      requires i < |cohorts|
      ensures near == Fits(kl, Cluster(), p, i)
    {
      var rep := Representative(records, cohorts[i].members);
      if rep == None { return false; }
      near := kl(p, records[rep.value].profile) < COHORT_KL_THRESHOLD;
    }

    /** Visit every record once, in any order, dropping the expired ones. */
    method EvictOld(now: int)
      modifies `records, `cohorts
      ensures Cluster() == Evict(old(Cluster()), now)
    {
      ghost var start := Cluster();
      var todo := records.Keys;
      NothingVisited(start, now);
      assert start.records.Keys - todo == {};
      while todo != {}
        invariant todo <= start.records.Keys && counter == old(counter)
        invariant Cluster() == EvictVisited(start, now, start.records.Keys - todo)
      {
        hide EvictVisited;
        var h :| h in todo;
        ghost var visited := start.records.Keys - todo;
        VisitOne(start, now, visited, h);
        var record := records[h];
        if now - record.lastSeen > TTL_MS {
          if record.cohort.Some? { cohorts := Leave(cohorts, record.cohort.value, h); }
          records := records - {h};
        }
        todo := todo - {h};
        assert start.records.Keys - todo == visited + {h};
      }
      assert start.records.Keys - todo == start.records.Keys;
    }

    /** Flags the address and everyone with the same cohort; the count is that of the members that have records. */
    method Flag(ip: string, day: int) returns (count: nat)
      requires Valid()
      modifies `records, `ops
      ensures Valid() && ops == old(ops) + [DoFlag(hashIp(ip, day))]
      ensures count == Sybil.Flag(old(Cluster()), hashIp(ip, day)).1
      ensures records.Keys == old(records.Keys)
      ensures var h := hashIp(ip, day); h in records ==>
        && records[h].flagged
        && forall g | g in records && records[h].cohort.Some? && records[g].cohort == records[h].cohort ::
             records[g].flagged
    {
      hide RunFrom;
      var h := hashIp(ip, day);
      RunExtends(kl, EMPTY_CLUSTER, ops, DoFlag(h));
      AlwaysIndexedHere();
      if h in records { FlagSpreads(Cluster(), h); }
      hide Indexed;
      ops := ops + [DoFlag(h)];
      count := FlagCohort(h);
    }

    method FlagCohort(h: Hash) returns (count: nat)
      modifies `records
      ensures Cluster() == Sybil.Flag(old(Cluster()), h).0 && count == Sybil.Flag(old(Cluster()), h).1
    {
      if h !in records { return 0; }
      var record := records[h];
      ghost var before := records;
      records := records[h := record.(flagged := true)];
      assert forall g :: g in [h] <==> g == h;
      assert records == FlagMembers(before, [h]);
      if record.cohort == None { return 1; }
      var members := MembersOf(cohorts, record.cohort.value);
      if members == None { return 1; }
      SamePresent(before, records, members.value);
      count := FlagAll(members.value);
    }

    function IsFlagged(ip: string, day: int): (flagged: bool)
      requires Valid()
      reads this
      ensures flagged == Sybil.IsFlagged(RunFrom(kl, EMPTY_CLUSTER, ops), hashIp(ip, day))
    {
      var h := hashIp(ip, day);
      if h in records then records[h].flagged else false
    }

    method FlagAll(members: seq<Hash>) returns (count: nat)
      modifies `records
      ensures records == FlagMembers(old(records), members) && count == Present(old(records), members)
    {
      count := 0;
      for i := 0 to |members|
        invariant records == FlagMembers(old(records), members[..i])
        invariant count == Present(old(records), members[..i])
      {
        assert members[..i + 1][..i] == members[..i];
        assert forall g :: g in members[..i + 1] <==> g in members[..i] || g == members[i];
        if members[i] in records {
          records := records[members[i] := records[members[i]].(flagged := true)];
          count := count + 1;
        }
      }
      assert members[..|members|] == members;
    }

    method Clear()
      requires Valid()
      modifies this
      ensures Valid() && ops == old(ops) + [DoClear] && records == map[] && cohorts == []
    {
      hide RunFrom;
      RunExtends(kl, EMPTY_CLUSTER, ops, DoClear);
      ops := ops + [DoClear];
      records, cohorts, counter := map[], [], 0;
    }
  }

  lemma NothingVisited(cl: Sybil.Cluster, now: int)
    ensures EvictVisited(cl, now, {}) == cl
  {
    forall i | 0 <= i < |cl.cohorts|
      ensures Remaining(cl, now, {}, cl.cohorts[i].id, cl.cohorts[i].members) == cl.cohorts[i].members
    {
      AllRemain(cl, now, {}, cl.cohorts[i].id, cl.cohorts[i].members);
    }
  }

  lemma {:induction false} AllRemain(cl: Sybil.Cluster, now: int, visited: set<Hash>, id: nat, members: seq<Hash>)
    requires forall g | g in members :: !Leaves(cl, now, visited, id, g)
    ensures Remaining(cl, now, visited, id, members) == members
  {
    if members != [] {
      AllRemain(cl, now, visited, id, members[1..]);
      assert members == [members[0]] + members[1..];
    }
  }

  lemma {:induction false} RemainingVisit(cl: Sybil.Cluster, now: int, visited: set<Hash>, h: Hash,
                                          id: nat, members: seq<Hash>)
    ensures Remaining(cl, now, visited + {h}, id, members)
         == if Leaves(cl, now, {h}, id, h) then Without(Remaining(cl, now, visited, id, members), h)
            else Remaining(cl, now, visited, id, members)
  {
    if members != [] { RemainingVisit(cl, now, visited, h, id, members[1..]); }
  }

  /** Visiting one more record drops it if it has expired and does nothing otherwise. */
  lemma VisitOne(cl: Sybil.Cluster, now: int, visited: set<Hash>, h: Hash)
    requires h in cl.records && h !in visited
    ensures var part := EvictVisited(cl, now, visited);
      && h in part.records && part.records[h] == cl.records[h]
      && EvictVisited(cl, now, visited + {h}) == if Expired(cl.records[h], now) then Drop(part, h) else part
  {
    var part, next := EvictVisited(cl, now, visited), EvictVisited(cl, now, visited + {h});
    forall i | 0 <= i < |cl.cohorts|
      ensures next.cohorts[i].members
           == if Leaves(cl, now, {h}, cl.cohorts[i].id, h) then Without(part.cohorts[i].members, h)
              else part.cohorts[i].members
    {
      RemainingVisit(cl, now, visited, h, cl.cohorts[i].id, cl.cohorts[i].members);
    }
    hide Remaining;
    var want := if Expired(cl.records[h], now) then Drop(part, h) else part;
    assert next.records == want.records;
    assert next.cohorts == want.cohorts;
  }

  lemma {:induction false} SamePresent(r: map<Hash, Record>, r': map<Hash, Record>, members: seq<Hash>)
    requires r.Keys == r'.Keys
    ensures Present(r, members) == Present(r', members)
  {
    if members != [] { SamePresent(r, r', members[..|members| - 1]); }
  }
}
