/** Who shares a cohort in sybilCluster.ts after any run, and whom a flag reaches. */
module Contagion {
  import opened Divergence
  import opened Optional
  import opened Sybil
  import opened Welford

  // ---------- what an ingestion does to the records ----------

  /** From ten thousand records on, an ingestion first removes those not seen for a day. */
  ghost predicate Survives(cl: Cluster, g: Hash, now: int) {
    g in cl.records && (|cl.records| >= 10000 ==> now - cl.records[g].lastSeen <= 86400000)
  }

  ghost function ProfileAfter(cl: Cluster, h: Hash, samples: seq<real>, now: int): Profile {
    UpdateAll(if Survives(cl, h, now) then cl.records[h].profile else EMPTY, samples)
  }

  /** The cluster with the new samples in, just before the address is assigned. */
  ghost function Absorbed(cl: Cluster, h: Hash, samples: seq<real>, now: int): (r: Cluster)
    ensures h in r.records
  {
    var kept := if |cl.records| >= MAX_RECORDS then Evict(cl, now) else cl;
    kept.(records := kept.records[h := Absorb(kept.records, h, samples, now)])
  }

  lemma AbsorbedRecords(cl: Cluster, h: Hash, samples: seq<real>, now: int)
    ensures var r := Absorbed(cl, h, samples, now);
      && (forall g :: g in r.records <==> g == h || Survives(cl, g, now))
      && (forall g | g != h && Survives(cl, g, now) :: r.records[g] == cl.records[g])
      && r.records[h].profile == ProfileAfter(cl, h, samples, now) && r.records[h].lastSeen == now
      && r.records[h].flagged == (Survives(cl, h, now) && cl.records[h].flagged)
      && r.records[h].cohort == (if Survives(cl, h, now) then cl.records[h].cohort else None)
      && |r.cohorts| == |cl.cohorts| && r.counter == cl.counter
  {
    hide UpdateAll, Remaining;
  }

  /** Only the address's own record changes, and of that only the cohort is left to be assigned. */
  lemma AssignedRecord(kl: Distance, cl: Cluster, h: Hash)
    requires h in cl.records
    ensures var r := Assign(kl, cl, h);
      && r.records.Keys == cl.records.Keys && (forall g | g in cl.records && g != h :: r.records[g] == cl.records[g])
      && r.records[h] == cl.records[h].(cohort := r.records[h].cohort)
  {
    hide FindCohort, Leave;
  }

  /** Every ingestion: which records there are, what they hold, and that the others are as they were. */
  lemma IngestRecords(kl: Distance, cl: Cluster, h: Hash, samples: seq<real>, now: int)
    ensures var r := Ingest(kl, cl, h, samples, now);
      && (forall g :: g in r.records <==> g == h || Survives(cl, g, now))
      && (forall g | g != h && Survives(cl, g, now) :: r.records[g] == cl.records[g])
      && r.records[h].profile == ProfileAfter(cl, h, samples, now) && r.records[h].lastSeen == now
      && r.records[h].flagged == (Survives(cl, h, now) && cl.records[h].flagged)
  {
    hide Assign, Evict, Absorb, ProfileAfter, Survives;
    AbsorbedRecords(cl, h, samples, now);
    AssignedRecord(kl, Absorbed(cl, h, samples, now), h);
  }

  // ---------- a record has a cohort exactly from five samples on ----------

  ghost predicate Settled(cl: Cluster) {
    forall h | h in cl.records :: cl.records[h].cohort.Some? <==> cl.records[h].profile.count >= 5
  }

  lemma AssignSettles(kl: Distance, cl: Cluster, h: Hash)
    requires h in cl.records
    ensures h in Assign(kl, cl, h).records
    ensures cl.records[h].profile.count >= 5 ==> Assign(kl, cl, h).records[h].cohort.Some?
    ensures cl.records[h].profile.count < 5 ==> Assign(kl, cl, h) == cl
  {
    hide FindCohort, Leave;
  }

  lemma IngestSettled(kl: Distance, cl: Cluster, h: Hash, samples: seq<real>, now: int)
    requires Settled(cl)
    ensures Settled(Ingest(kl, cl, h, samples, now))
  {
    hide Assign, Evict, Absorb, Survives, ProfileAfter;
    var mid := Absorbed(cl, h, samples, now);
    AbsorbedRecords(cl, h, samples, now);
    AssignedRecord(kl, mid, h);
    AssignSettles(kl, mid, h);
    SurvivesIn(cl, now);
    if mid.records[h].profile.count < 5 { ProfileGrows(cl, h, samples, now); }
  }

  lemma SurvivesIn(cl: Cluster, now: int)
    ensures forall g | Survives(cl, g, now) :: g in cl.records
  {
  }

  lemma ProfileGrows(cl: Cluster, h: Hash, samples: seq<real>, now: int)
    ensures ProfileAfter(cl, h, samples, now).count >= |samples|
    ensures Survives(cl, h, now) ==> ProfileAfter(cl, h, samples, now).count == cl.records[h].profile.count + |samples|
  {
    UpdateAllCount(if Survives(cl, h, now) then cl.records[h].profile else EMPTY, samples);
    hide UpdateAll;
  }

  lemma FlagSettled(cl: Cluster, h: Hash)
    requires Settled(cl)
    ensures Settled(Flag(cl, h).0)
  {
    FlagChangesFlags(cl, h);
    hide Flag;
  }

  /** In every reachable state a record has a cohort exactly when its profile has at least five samples. */
  lemma {:induction false} AlwaysSettled(kl: Distance, cl: Cluster, ops: seq<Op>)
    requires Settled(cl)
    ensures Settled(RunFrom(kl, cl, ops))
  {
    hide Settled, Ingest, Flag;
    if ops != [] {
      var before := RunFrom(kl, cl, ops[..|ops| - 1]);
      AlwaysSettled(kl, cl, ops[..|ops| - 1]);
      match ops[|ops| - 1]
      case DoIngest(h, samples, now) => IngestSettled(kl, before, h, samples, now);
      case DoFlag(h) => FlagSettled(before, h);
      case DoClear => EmptySettled();
    }
  }

  lemma EmptySettled()
    ensures Settled(EMPTY_CLUSTER)
  {
  }

  // ---------- which cohort ----------

  /** Member k of the list is the first with a record of at least five samples. */
  ghost predicate FirstStable(records: map<Hash, Record>, members: seq<Hash>, k: int) {
    && 0 <= k < |members| && members[k] in records && records[members[k]].profile.count >= 5
    && forall j | 0 <= j < k :: members[j] in records ==> records[members[j]].profile.count < 5
  }

  lemma {:induction false} RepresentativeIsFirst(records: map<Hash, Record>, members: seq<Hash>)
    ensures Representative(records, members).None? ==> forall k :: !FirstStable(records, members, k)
    ensures Representative(records, members).Some? ==>
      exists k :: FirstStable(records, members, k) && members[k] == Representative(records, members).value
    ensures forall k | FirstStable(records, members, k) :: Representative(records, members) == Some(members[k])
  {
    if members != [] {
      var rest := members[1..];
      if members[0] in records && records[members[0]].profile.count >= 5 {
        assert FirstStable(records, members, 0);
      } else {
        RepresentativeIsFirst(records, rest);
        forall k | FirstStable(records, members, k) ensures Representative(records, members) == Some(members[k]) {
          assert FirstStable(records, rest, k - 1);
        }
        if Representative(records, rest).Some? {
          var k :| FirstStable(records, rest, k) && rest[k] == Representative(records, rest).value;
          assert FirstStable(records, members, k + 1);
        }
      }
    }
  }

  /** The first member of cohort i with enough samples is nearer to the profile than 0.15. */
  ghost predicate Near(kl: Distance, cl: Cluster, p: Profile, i: nat)
    requires i < |cl.cohorts|
  {
    exists k :: FirstStable(cl.records, cl.cohorts[i].members, k)
             && kl(p, cl.records[cl.cohorts[i].members[k]].profile) < 0.15
  }

  lemma FitsIsNear(kl: Distance, cl: Cluster, p: Profile, i: nat)
    requires i < |cl.cohorts|
    ensures Fits(kl, cl, p, i) <==> Near(kl, cl, p, i)
  {
    RepresentativeIsFirst(cl.records, cl.cohorts[i].members);
    hide FirstStable, Representative;
  }

  lemma {:induction false} FindsFirst(kl: Distance, cl: Cluster, p: Profile, i: nat)
    requires i <= |cl.cohorts|
    ensures match FindCohort(kl, cl, p, i)
      case None => forall j | i <= j < |cl.cohorts| :: !Near(kl, cl, p, j)
      case Some(k) => Near(kl, cl, p, k) && forall j | i <= j < k :: !Near(kl, cl, p, j)
    decreases |cl.cohorts| - i
  {
    hide Fits, Near;
    if i < |cl.cohorts| {
      FitsIsNear(kl, cl, p, i);
      FindsFirst(kl, cl, p, i + 1);
    }
  }

  lemma AssignedCohort(kl: Distance, cl: Cluster, h: Hash)
    requires Indexed(cl) && h in cl.records && cl.records[h].profile.count >= 5
    ensures h in Assign(kl, cl, h).records
    ensures Assign(kl, cl, h).records[h].cohort == match FindCohort(kl, cl, cl.records[h].profile, 0)
      case None => Some(|cl.cohorts| + 1)
      case Some(i) => Some(i + 1)
  {
    hide FindCohort, Leave, Indexed, With;
    match FindCohort(kl, cl, cl.records[h].profile, 0)
    case None => CountedCohorts(cl);
    case Some(i) => OwnCohortAt(cl, i);
  }

  lemma CountedCohorts(cl: Cluster)
    requires Indexed(cl)
    ensures cl.counter == |cl.cohorts|
  {
    hide Placed;
  }

  /** An ingestion that leaves five samples or more puts the address into the first near cohort, or a new one. */
  lemma IngestJoins(kl: Distance, cl: Cluster, h: Hash, samples: seq<real>, now: int) returns (c: nat)
    requires Indexed(cl) && ProfileAfter(cl, h, samples, now).count >= 5
    ensures h in Ingest(kl, cl, h, samples, now).records
    ensures Ingest(kl, cl, h, samples, now).records[h].cohort == Some(c + 1)
    ensures var mid, p := Absorbed(cl, h, samples, now), ProfileAfter(cl, h, samples, now);
      && c <= |mid.cohorts| == |cl.cohorts|
      && (forall j | 0 <= j < c :: !Near(kl, mid, p, j)) && (c < |mid.cohorts| ==> Near(kl, mid, p, c))
  {
    hide Assign, Evict, Absorb, ProfileAfter, Survives, Near, FindCohort, Indexed;
    var mid := Absorbed(cl, h, samples, now);
    AbsorbedIndexed(cl, h, samples, now);
    AbsorbedRecords(cl, h, samples, now);
    var p := mid.records[h].profile;
    AssignedCohort(kl, mid, h);
    FindsFirst(kl, mid, p, 0);
    c := match FindCohort(kl, mid, p, 0) case None => |mid.cohorts| case Some(i) => i;
  }

  lemma AbsorbedIndexed(cl: Cluster, h: Hash, samples: seq<real>, now: int)
    requires Indexed(cl)
    ensures Indexed(Absorbed(cl, h, samples, now))
  {
    hide Indexed, Absorb, Evict;
    EvictIndexed(cl, now);
    AbsorbIndexed(if |cl.records| >= MAX_RECORDS then Evict(cl, now) else cl, h, samples, now);
  }

  // ---------- under the divergence of welford.ts ----------

  /** Cohort i has a representative, one with ten samples where that is asked. */
  ghost predicate Represented(cl: Cluster, i: nat, shaped: bool)
    requires i < |cl.cohorts|
  {
    exists k :: FirstStable(cl.records, cl.cohorts[i].members, k)
             && (shaped ==> cl.records[cl.cohorts[i].members[k]].profile.count >= 10)
  }

  lemma EligibleIsRepresented(cl: Cluster, x: Profile, i: nat)
    requires i < |cl.cohorts|
    ensures Eligible(cl, x, i) <==> Represented(cl, i, x.count >= 10)
  {
    RepresentativeIsFirst(cl.records, cl.cohorts[i].members);
    hide FirstStable, Representative;
  }

  lemma {:induction false} WithoutKeepsFirst(records: map<Hash, Record>, members: seq<Hash>, h: Hash)
    requires Representative(records, members) != Some(h)
    ensures Representative(records, Without(members, h)) == Representative(records, members)
  {
    if members != [] && !(members[0] in records && records[members[0]].profile.count >= STABLE) {
      WithoutKeepsFirst(records, members[1..], h);
    }
  }

  lemma {:induction false} LongerKeepsFirst(records: map<Hash, Record>, members: seq<Hash>, h: Hash)
    requires Representative(records, members).Some?
    ensures Representative(records, members + [h]) == Representative(records, members)
  {
    if !(members[0] in records && records[members[0]].profile.count >= STABLE) {
      assert (members + [h])[1..] == members[1..] + [h];
      LongerKeepsFirst(records, members[1..], h);
    }
  }

  lemma {:induction false} SameFirst(r: map<Hash, Record>, r': map<Hash, Record>, members: seq<Hash>)
    requires r.Keys == r'.Keys && forall g | g in r :: r[g].profile == r'[g].profile
    ensures Representative(r, members) == Representative(r', members)
  {
    if members != [] { SameFirst(r, r', members[1..]); }
  }

  /** What an assignment does to the list of cohort j. */
  lemma AssignedMembers(kl: Distance, cl: Cluster, h: Hash, j: nat)
    requires Indexed(cl) && h in cl.records && cl.records[h].profile.count >= 5
    requires j < |Assign(kl, cl, h).cohorts|
    ensures var found, after := FindCohort(kl, cl, cl.records[h].profile, 0), Assign(kl, cl, h).cohorts[j].members;
      if found == Some(j) then after == With(cl.cohorts[j].members, h)
      else if j < |cl.cohorts| then after == cl.cohorts[j].members || after == Without(cl.cohorts[j].members, h)
      else found.None? && j == |cl.cohorts| && after == [h]
    ensures |Assign(kl, cl, h).cohorts|
         == if FindCohort(kl, cl, cl.records[h].profile, 0).None? then |cl.cohorts| + 1 else |cl.cohorts|
  {
    hide FindCohort, Placed, With, Without;
  }

  lemma SameRepresentative(kl: Distance, cl: Cluster, h: Hash, j: nat)
    requires Indexed(cl) && h in cl.records && cl.records[h].profile.count >= 5 && j < |cl.cohorts|
    requires FindCohort(kl, cl, cl.records[h].profile, 0) != Some(j)
    requires Representative(cl.records, cl.cohorts[j].members) != Some(h)
    ensures var r := Assign(kl, cl, h);
      && j < |r.cohorts|
      && Representative(r.records, r.cohorts[j].members) == Representative(cl.records, cl.cohorts[j].members)
  {
    hide Assign, Indexed, Representative, Without, With;
    AssignedCount(kl, cl, h);
    AssignedMembers(kl, cl, h, j);
    AssignedRecord(kl, cl, h);
    WithoutKeepsFirst(cl.records, cl.cohorts[j].members, h);
    SameFirst(cl.records, Assign(kl, cl, h).records, Assign(kl, cl, h).cohorts[j].members);
  }

  lemma AssignedCount(kl: Distance, cl: Cluster, h: Hash)
    requires h in cl.records
    ensures |Assign(kl, cl, h).cohorts| >= |cl.cohorts|
  {
    hide FindCohort;
  }

  lemma JoinedRepresentative(kl: Distance, cl: Cluster, h: Hash, j: nat)
    requires Indexed(cl) && h in cl.records && cl.records[h].profile.count >= 5 && j < |cl.cohorts|
    requires FindCohort(kl, cl, cl.records[h].profile, 0) == Some(j)
    requires Representative(cl.records, cl.cohorts[j].members).Some?
    ensures var r := Assign(kl, cl, h);
      && j < |r.cohorts|
      && Representative(r.records, r.cohorts[j].members) == Representative(cl.records, cl.cohorts[j].members)
  {
    hide Assign, Indexed, Representative, Without;
    AssignedCount(kl, cl, h);
    AssignedMembers(kl, cl, h, j);
    AssignedRecord(kl, cl, h);
    LongerKeepsFirst(cl.records, cl.cohorts[j].members, h);
    SameFirst(cl.records, Assign(kl, cl, h).records, Assign(kl, cl, h).cohorts[j].members);
  }

  lemma FoundedRepresentative(kl: Distance, cl: Cluster, h: Hash)
    requires Indexed(cl) && h in cl.records && cl.records[h].profile.count >= 5
    requires FindCohort(kl, cl, cl.records[h].profile, 0).None?
    ensures var r := Assign(kl, cl, h);
      && |r.cohorts| == |cl.cohorts| + 1 && h in r.records
      && Representative(r.records, r.cohorts[|cl.cohorts|].members) == Some(h)
      && r.records[h].profile == cl.records[h].profile
  {
    hide FindCohort, Indexed;
  }

  /** The cohort of a stable address that was just assigned is the first one eligible for it, now as before. */
  lemma AssignedFirst(a: Analysis, cl: Cluster, h: Hash) returns (c: nat)
    requires Lawful(a) && Indexed(cl) && h in cl.records && cl.records[h].profile.count >= 5
    ensures var r, x := Assign(KlDistance(a), cl, h), cl.records[h].profile;
      && h in r.records && r.records[h].cohort == Some(c + 1) && c < |r.cohorts|
      && Eligible(r, x, c) && forall j | 0 <= j < c :: !Eligible(r, x, j)
  {
    hide KlDistance, Lawful, Assign, Indexed, FindCohort, Representative;
    var kl, x := KlDistance(a), cl.records[h].profile;
    JoinsFirstEligible(a, cl, x, 0);
    AssignedCohort(kl, cl, h);
    AssignedRecord(kl, cl, h);
    match FindCohort(kl, cl, x, 0) {
      case None =>
        c := |cl.cohorts|;
        FoundedRepresentative(kl, cl, h);
      case Some(i) =>
        c := i;
        JoinedRepresentative(kl, cl, h, i);
    }
    forall j | 0 <= j < c ensures !Eligible(Assign(kl, cl, h), x, j) {
      assert !Eligible(cl, x, j);
      SameRepresentative(kl, cl, h, j);
    }
  }

  /**
   * In every reachable state: an ingestion that leaves h with five samples or more leaves it in the first cohort that
   * is represented at all, from ten samples on in the first that is represented by a profile of ten. So another
   * address shares its cohort exactly when that is its cohort too.
   */
  lemma IngestJoinsFirst(a: Analysis, cl: Cluster, h: Hash, samples: seq<real>, now: int) returns (c: nat)
    requires Lawful(a) && Indexed(cl) && ProfileAfter(cl, h, samples, now).count >= 5
    ensures var r, shaped := Ingest(KlDistance(a), cl, h, samples, now), ProfileAfter(cl, h, samples, now).count >= 10;
      && h in r.records && r.records[h].cohort == Some(c + 1) && c < |r.cohorts|
      && Represented(r, c, shaped) && (forall j | 0 <= j < c :: !Represented(r, j, shaped))
      && forall g | g in r.records :: r.records[g].cohort == r.records[h].cohort <==> r.records[g].cohort == Some(c + 1)
  {
    hide KlDistance, Lawful, Assign, Absorb, Evict, Indexed, ProfileAfter, Survives, Eligible, Represented;
    AbsorbedIndexed(cl, h, samples, now);
    AbsorbedRecords(cl, h, samples, now);
    c := AssignedFirst(a, Absorbed(cl, h, samples, now), h);
    var r, x := Ingest(KlDistance(a), cl, h, samples, now), ProfileAfter(cl, h, samples, now);
    var shaped := x.count >= 10;
    EligibleIsRepresented(r, x, c);
    forall j | 0 <= j < c ensures !Represented(r, j, shaped) {
      EligibleIsRepresented(r, x, j);
    }
  }

  // ---------- how many a flag counts ----------

  ghost predicate Distinct(members: seq<Hash>) { forall i, j | 0 <= i < j < |members| :: members[i] != members[j] }

  ghost predicate NoRepeats(cl: Cluster) { forall i | 0 <= i < |cl.cohorts| :: Distinct(cl.cohorts[i].members) }

  lemma {:induction false} WithoutDistinct(members: seq<Hash>, h: Hash)
    requires Distinct(members)
    ensures Distinct(Without(members, h))
  {
    if members != [] {
      var rest := Without(members[1..], h);
      WithoutDistinct(members[1..], h);
      forall i | 0 <= i < |rest| ensures rest[i] != members[0] {
        assert rest[i] in members[1..];
      }
    }
  }

  lemma {:induction false} RemainingDistinct(cl: Cluster, now: int, visited: set<Hash>, id: nat, members: seq<Hash>)
    requires Distinct(members)
    ensures Distinct(Remaining(cl, now, visited, id, members))
  {
    hide Leaves;
    if members != [] {
      var rest := Remaining(cl, now, visited, id, members[1..]);
      RemainingDistinct(cl, now, visited, id, members[1..]);
      forall i | 0 <= i < |rest| ensures rest[i] != members[0] {
        assert rest[i] in members[1..];
      }
    }
  }

  lemma EvictDistinct(cl: Cluster, now: int)
    requires NoRepeats(cl)
    ensures NoRepeats(Evict(cl, now))
  {
    hide Distinct, Remaining;
    forall i | 0 <= i < |cl.cohorts| ensures Distinct(Evict(cl, now).cohorts[i].members) {
      RemainingDistinct(cl, now, cl.records.Keys, cl.cohorts[i].id, cl.cohorts[i].members);
    }
  }

  lemma AssignDistinct(kl: Distance, cl: Cluster, h: Hash)
    requires h in cl.records && NoRepeats(cl)
    ensures NoRepeats(Assign(kl, cl, h))
  {
    hide FindCohort, Without;
    forall i | 0 <= i < |cl.cohorts| ensures Distinct(Without(cl.cohorts[i].members, h)) {
      WithoutDistinct(cl.cohorts[i].members, h);
    }
  }

  /** No address is ever listed twice in one cohort. */
  lemma {:induction false} NeverRepeats(kl: Distance, cl: Cluster, ops: seq<Op>)
    requires NoRepeats(cl)
    ensures NoRepeats(RunFrom(kl, cl, ops))
  {
    hide NoRepeats, Assign, Evict, Absorb;
    if ops != [] {
      var before, op := RunFrom(kl, cl, ops[..|ops| - 1]), ops[|ops| - 1];
      NeverRepeats(kl, cl, ops[..|ops| - 1]);
      match op
      case DoIngest(h, samples, now) => IngestDistinct(kl, before, h, samples, now);
      case DoFlag(h) => FlagDistinct(before, h);
      case DoClear => EmptyDistinct();
    }
  }

  lemma EmptyDistinct()
    ensures NoRepeats(EMPTY_CLUSTER)
  {
  }

  lemma FlagDistinct(cl: Cluster, h: Hash)
    requires NoRepeats(cl)
    ensures NoRepeats(Flag(cl, h).0)
  {
    FlagChangesFlags(cl, h);
    hide Flag, Distinct;
  }

  lemma IngestDistinct(kl: Distance, cl: Cluster, h: Hash, samples: seq<real>, now: int)
    requires NoRepeats(cl)
    ensures NoRepeats(Ingest(kl, cl, h, samples, now))
  {
    hide Assign, Evict, Absorb, Distinct;
    EvictDistinct(cl, now);
    AssignDistinct(kl, Absorbed(cl, h, samples, now), h);
  }

  lemma {:induction false} PresentCounts(records: map<Hash, Record>, members: seq<Hash>)
    requires Distinct(members)
    ensures Present(records, members) == |set g | g in members && g in records|
  {
    if members != [] {
      var front, last := members[..|members| - 1], members[|members| - 1];
      PresentCounts(records, front);
      var before, after := set g | g in front && g in records, set g | g in members && g in records;
      assert last !in front;
      assert forall g :: g in members <==> g in front || g == last;
      assert after == if last in records then before + {last} else before;
    } else {
      assert (set g | g in members && g in records) == {};
    }
  }

  /** The count that flagging returns: the addresses listed with the flagged one that have a record, or 1 without. */
  lemma FlagCounts(kl: Distance, ops: seq<Op>, h: Hash)
    ensures var cl := RunFrom(kl, EMPTY_CLUSTER, ops); h in cl.records && cl.records[h].cohort.Some? ==>
      && 1 <= cl.records[h].cohort.value <= |cl.cohorts|
      && Flag(cl, h).1 == |set g | g in cl.cohorts[cl.records[h].cohort.value - 1].members && g in cl.records|
    ensures var cl := RunFrom(kl, EMPTY_CLUSTER, ops);
      && (h in cl.records && cl.records[h].cohort.None? ==> Flag(cl, h).1 == 1)
      && (h !in cl.records ==> Flag(cl, h) == (cl, 0))
  {
    EmptyDistinct();
    NeverRepeats(kl, EMPTY_CLUSTER, ops);
    EmptyIndexed();
    AlwaysIndexed(kl, EMPTY_CLUSTER, ops);
    hide RunFrom;
    FlagCountsHere(RunFrom(kl, EMPTY_CLUSTER, ops), h);
  }

  lemma FlagCountsHere(cl: Cluster, h: Hash)
    requires Indexed(cl) && NoRepeats(cl)
    ensures h in cl.records && cl.records[h].cohort.Some? ==>
      && 1 <= cl.records[h].cohort.value <= |cl.cohorts|
      && Flag(cl, h).1 == |set g | g in cl.cohorts[cl.records[h].cohort.value - 1].members && g in cl.records|
  {
    hide Distinct, MembersOf, Present, FlagMembers;
    if h in cl.records && cl.records[h].cohort.Some? {
      OwnCohort(cl, h);
      MembersOfAt(cl.cohorts, 1, cl.records[h].cohort.value);
      PresentCounts(cl.records, cl.cohorts[cl.records[h].cohort.value - 1].members);
    }
  }

  // ---------- when every ingestion is large, all addresses share one cohort ----------

  ghost predicate Large(op: Op) { op.DoIngest? ==> |op.samples| >= 10 }

  /** All records are in the last cohort, which lists exactly them; the earlier cohorts are empty. */
  ghost predicate Gathered(cl: Cluster) {
    && (forall g | g in cl.records :: cl.records[g].cohort == Some(|cl.cohorts|) && cl.records[g].profile.count >= 10)
    && (forall i | 0 <= i < |cl.cohorts| - 1 :: cl.cohorts[i].members == [])
    && (cl.cohorts == [] ==> cl.records == map[])
    && (cl.cohorts != [] ==> forall g :: g in cl.cohorts[|cl.cohorts| - 1].members <==> g in cl.records)
  }

  lemma EvictGathered(cl: Cluster, now: int)
    requires Indexed(cl) && Gathered(cl)
    ensures Gathered(Evict(cl, now))
  {
    hide Placed;
    var r := Evict(cl, now);
    assert cl.cohorts == [] ==> r.records == map[];
  }

  /** Where the search ends in a gathered cluster: in the last cohort, or nowhere when no address is left. */
  lemma FoundGathered(a: Analysis, cl: Cluster, mid: Cluster, h: Hash)
    requires Lawful(a) && Gathered(cl) && mid.cohorts == cl.cohorts
    requires h in mid.records && mid.records[h].profile.count >= 10
    requires forall g | g in cl.records :: g in mid.records && mid.records[g].profile.count >= 10
    ensures FindCohort(KlDistance(a), mid, mid.records[h].profile, 0)
         == if cl.cohorts == [] || cl.cohorts[|cl.cohorts| - 1].members == [] then None else Some(|cl.cohorts| - 1)
  {
    hide KlDistance, Lawful;
    var x := mid.records[h].profile;
    JoinsFirstEligible(a, mid, x, 0);
    hide FindCohort;
    forall i | 0 <= i < |cl.cohorts| && cl.cohorts[i].members == [] ensures !Eligible(mid, x, i) {
    }
    if cl.cohorts != [] {
      var last := cl.cohorts[|cl.cohorts| - 1].members;
      if last != [] {
        assert last[0] in last;
        assert Eligible(mid, x, |cl.cohorts| - 1);
      }
    }
  }

  lemma AssignGathered(a: Analysis, cl: Cluster, mid: Cluster, h: Hash)
    requires Lawful(a) && Indexed(cl) && Gathered(cl) && mid.cohorts == cl.cohorts && mid.counter == cl.counter
    requires h in mid.records && mid.records[h].profile.count >= 10
    requires forall g :: g in mid.records <==> g == h || g in cl.records
    requires forall g | g in cl.records && g != h :: mid.records[g] == cl.records[g]
    requires mid.records[h].cohort == if h in cl.records then cl.records[h].cohort else None
    ensures Gathered(Assign(KlDistance(a), mid, h))
  {
    hide KlDistance, Lawful, Assign, Indexed;
    FoundGathered(a, cl, mid, h);
    CountedCohorts(cl);
    if cl.cohorts == [] || cl.cohorts[|cl.cohorts| - 1].members == [] {
      AssignFounds(KlDistance(a), mid, h);
      FoundAlone(cl, mid, h);
    } else {
      OwnCohortAt(cl, |cl.cohorts| - 1);
      AssignJoins(KlDistance(a), mid, h, |cl.cohorts| - 1);
      JoinedLast(cl, mid, h);
    }
  }

  lemma AssignFounds(kl: Distance, cl: Cluster, h: Hash)
    requires h in cl.records && cl.records[h].profile.count >= 5
    requires FindCohort(kl, cl, cl.records[h].profile, 0) == None
    ensures var id := cl.counter + 1;
      Assign(kl, cl, h)
      == Cluster(cl.records[h := cl.records[h].(cohort := Some(id))], cl.cohorts + [Cohort(id, [h])], id)
  {
    hide FindCohort;
  }

  lemma AssignJoins(kl: Distance, cl: Cluster, h: Hash, i: nat)
    requires h in cl.records && cl.records[h].profile.count >= 5 && i < |cl.cohorts|
    requires FindCohort(kl, cl, cl.records[h].profile, 0) == Some(i)
    requires cl.records[h].cohort.Some? ==> cl.records[h].cohort.value == cl.cohorts[i].id
    ensures var id := cl.cohorts[i].id;
      Assign(kl, cl, h)
      == Cluster(cl.records[h := cl.records[h].(cohort := Some(id))],
                 cl.cohorts[i := Cohort(id, With(cl.cohorts[i].members, h))], cl.counter)
  {
    hide FindCohort, With;
  }

  lemma FoundAlone(cl: Cluster, mid: Cluster, h: Hash)
    requires Gathered(cl) && mid.cohorts == cl.cohorts && |cl.cohorts| == mid.counter
    requires h in mid.records && mid.records[h].profile.count >= 10
    requires forall g :: g in mid.records <==> g == h || g in cl.records
    requires cl.cohorts == [] || cl.cohorts[|cl.cohorts| - 1].members == []
    ensures var id := mid.counter + 1;
      Gathered(Cluster(mid.records[h := mid.records[h].(cohort := Some(id))], mid.cohorts + [Cohort(id, [h])], id))
  {
    NobodyLeft(cl);
    hide Gathered;
    forall i | 0 <= i < |cl.cohorts| ensures cl.cohorts[i].members == [] {
      EarlierEmpty(cl, i);
    }
    var id := mid.counter + 1;
    var r := Cluster(mid.records[h := mid.records[h].(cohort := Some(id))], mid.cohorts + [Cohort(id, [h])], id);
    assert forall g :: g in r.records <==> g == h;
    GatheredIf(r);
  }

  lemma NobodyLeft(cl: Cluster)
    requires Gathered(cl) && (cl.cohorts == [] || cl.cohorts[|cl.cohorts| - 1].members == [])
    ensures forall g :: g !in cl.records
  {
  }

  lemma EarlierEmpty(cl: Cluster, i: nat)
    requires Gathered(cl) && i < |cl.cohorts|
    ensures i < |cl.cohorts| - 1 ==> cl.cohorts[i].members == []
  {
  }

  lemma GatheredIf(cl: Cluster)
    requires cl.cohorts != []
    requires forall g | g in cl.records ::
      cl.records[g].cohort == Some(|cl.cohorts|) && cl.records[g].profile.count >= 10
    requires forall i | 0 <= i < |cl.cohorts| - 1 :: cl.cohorts[i].members == []
    requires forall g :: g in cl.cohorts[|cl.cohorts| - 1].members <==> g in cl.records
    ensures Gathered(cl)
  {
  }

  lemma JoinedLast(cl: Cluster, mid: Cluster, h: Hash)
    requires Gathered(cl) && cl.cohorts != [] && mid.cohorts == cl.cohorts
    requires h in mid.records && mid.records[h].profile.count >= 10
    requires forall g :: g in mid.records <==> g == h || g in cl.records
    requires forall g | g in cl.records && g != h :: mid.records[g] == cl.records[g]
    ensures var n := |cl.cohorts|;
      Gathered(Cluster(mid.records[h := mid.records[h].(cohort := Some(n))],
                       mid.cohorts[n - 1 := Cohort(n, With(mid.cohorts[n - 1].members, h))], mid.counter))
  {
    var n := |cl.cohorts|;
    var r := Cluster(mid.records[h := mid.records[h].(cohort := Some(n))],
                     mid.cohorts[n - 1 := Cohort(n, With(mid.cohorts[n - 1].members, h))], mid.counter);
    hide With;
    assert r.cohorts[n - 1].members == With(cl.cohorts[n - 1].members, h);
    GatheredIf(r);
  }

  lemma IngestGathered(a: Analysis, cl: Cluster, h: Hash, samples: seq<real>, now: int)
    requires Lawful(a) && Indexed(cl) && Gathered(cl) && |samples| >= 10
    ensures Gathered(Ingest(KlDistance(a), cl, h, samples, now))
  {
    hide KlDistance, Lawful, Assign, Evict, Gathered, Indexed;
    EvictIndexed(cl, now);
    EvictGathered(cl, now);
    var kept := if |cl.records| >= MAX_RECORDS then Evict(cl, now) else cl;
    UpdateAllCount(if h in kept.records then kept.records[h].profile else EMPTY, samples);
    hide UpdateAll;
    AssignGathered(a, kept, Absorbed(cl, h, samples, now), h);
  }

  lemma FlagGathered(cl: Cluster, h: Hash)
    requires Gathered(cl)
    ensures Gathered(Flag(cl, h).0)
  {
    FlagChangesFlags(cl, h);
    hide Flag;
    assert cl.records.Keys == Flag(cl, h).0.records.Keys;
  }

  lemma EmptyGathered()
    ensures Gathered(EMPTY_CLUSTER)
  {
  }

  lemma {:induction false} AlwaysGathered(a: Analysis, ops: seq<Op>)
    requires Lawful(a) && forall i | 0 <= i < |ops| :: Large(ops[i])
    ensures Gathered(RunFrom(KlDistance(a), EMPTY_CLUSTER, ops))
  {
    hide KlDistance, Lawful, Gathered, Ingest, Flag;
    EmptyGathered();
    if ops != [] {
      var front := ops[..|ops| - 1];
      var before := RunFrom(KlDistance(a), EMPTY_CLUSTER, front);
      AlwaysGathered(a, front);
      EmptyIndexed();
      AlwaysIndexed(KlDistance(a), EMPTY_CLUSTER, front);
      assert Large(ops[|ops| - 1]);
      match ops[|ops| - 1]
      case DoIngest(h, samples, now) => IngestGathered(a, before, h, samples, now);
      case DoFlag(h) => FlagGathered(before, h);
      case DoClear =>
    }
  }

  /**
   * In every run from the empty cluster whose ingestions bring ten samples or more, all addresses share one cohort:
   * flagging any of them flags every address there is, and counts them all.
   */
  lemma FlagReachesAll(a: Analysis, ops: seq<Op>, h: Hash)
    requires Lawful(a) && forall i | 0 <= i < |ops| :: Large(ops[i])
    requires h in RunFrom(KlDistance(a), EMPTY_CLUSTER, ops).records
    ensures var cl := RunFrom(KlDistance(a), EMPTY_CLUSTER, ops);
      && (forall g | g in cl.records :: cl.records[g].cohort == cl.records[h].cohort)
      && (forall g | g in cl.records :: IsFlagged(Flag(cl, h).0, g))
      && Flag(cl, h).1 == |cl.records|
  {
    hide KlDistance, Lawful, RunFrom, Flag, Gathered, Indexed;
    AlwaysGathered(a, ops);
    EmptyIndexed();
    AlwaysIndexed(KlDistance(a), EMPTY_CLUSTER, ops);
    EmptyDistinct();
    NeverRepeats(KlDistance(a), EMPTY_CLUSTER, ops);
    FlagGatheredAll(RunFrom(KlDistance(a), EMPTY_CLUSTER, ops), h);
  }

  lemma FlagGatheredAll(cl: Cluster, h: Hash)
    requires Indexed(cl) && Gathered(cl) && NoRepeats(cl) && h in cl.records
    ensures forall g | g in cl.records :: cl.records[g].cohort == cl.records[h].cohort
    ensures forall g | g in cl.records :: IsFlagged(Flag(cl, h).0, g)
    ensures Flag(cl, h).1 == |cl.records|
  {
    hide Flag, Indexed, NoRepeats;
    FlagSpreads(cl, h);
    FlagCountsHere(cl, h);
    var members := cl.cohorts[|cl.cohorts| - 1].members;
    assert (set g | g in members && g in cl.records) == cl.records.Keys;
    assert |cl.records.Keys| == |cl.records|;
  }

  // ---------- but a small first ingestion can separate two addresses ----------

  lemma SearchEndsAt(a: Analysis, cl: Cluster, x: Profile, c: nat)
    requires Lawful(a) && x.count >= 5 && c <= |cl.cohorts| && forall j | 0 <= j < c :: !Eligible(cl, x, j)
    requires c < |cl.cohorts| ==> Eligible(cl, x, c)
    ensures FindCohort(KlDistance(a), cl, x, 0) == if c < |cl.cohorts| then Some(c) else None
  {
    hide KlDistance, Lawful, Eligible;
    JoinsFirstEligible(a, cl, x, 0);
    hide FindCohort;
  }

  /** The first member of a one-element list represents it. */
  lemma OnlyMember(records: map<Hash, Record>, g: Hash)
    requires g in records && records[g].profile.count >= 5
    ensures Representative(records, [g]) == Some(g)
  {
  }

  /** The cluster after g and h have been ingested, with five samples and with ten. */
  function Apart(g: Hash, h: Hash, p: Profile, q: Profile, now: int): Cluster {
    Cluster(map[g := Record(p, Some(1), false, now), h := Record(q, Some(2), false, now)],
            [Cohort(1, [g]), Cohort(2, [h])], 2)
  }

  lemma FirstAddress(a: Analysis, g: Hash, five: seq<real>, now: int)
    requires Lawful(a) && |five| == 5
    ensures Ingest(KlDistance(a), EMPTY_CLUSTER, g, five, now)
         == Cluster(map[g := Record(UpdateAll(EMPTY, five), Some(1), false, now)], [Cohort(1, [g])], 1)
  {
    hide KlDistance, Lawful;
    var p := UpdateAll(EMPTY, five);
    UpdateAllCount(EMPTY, five);
    hide UpdateAll;
    var mid := EMPTY_CLUSTER.(records := map[g := Record(p, None, false, now)]);
    SearchEndsAt(a, mid, p, 0);
    AssignFounds(KlDistance(a), mid, g);
  }

  lemma SecondAddress(a: Analysis, g: Hash, h: Hash, p: Profile, ten: seq<real>, now: int)
    requires Lawful(a) && g != h && p.count == 5 && |ten| == 10
    ensures Ingest(KlDistance(a), Cluster(map[g := Record(p, Some(1), false, now)], [Cohort(1, [g])], 1), h, ten, now)
         == Apart(g, h, p, UpdateAll(EMPTY, ten), now)
  {
    hide KlDistance, Lawful;
    var q := UpdateAll(EMPTY, ten);
    UpdateAllCount(EMPTY, ten);
    hide UpdateAll;
    var mid := Cluster(map[g := Record(p, Some(1), false, now), h := Record(q, None, false, now)], [Cohort(1, [g])], 1);
    OnlyMember(mid.records, g);
    SearchEndsAt(a, mid, q, 1);
    AssignFounds(KlDistance(a), mid, h);
  }

  lemma FirstAgain(a: Analysis, g: Hash, h: Hash, p: Profile, q: Profile, five: seq<real>, now: int)
    requires Lawful(a) && g != h && p.count == 5 && q.count == 10 && |five| == 5
    ensures Ingest(KlDistance(a), Apart(g, h, p, q, now), g, five, now) == Apart(g, h, UpdateAll(p, five), q, now)
  {
    hide KlDistance, Lawful;
    var p' := UpdateAll(p, five);
    UpdateAllCount(p, five);
    hide UpdateAll;
    var mid := Apart(g, h, p', q, now);
    OnlyMember(mid.records, g);
    SearchEndsAt(a, mid, p', 0);
    AssignJoins(KlDistance(a), mid, g, 0);
    assert With([g], g) == [g];
  }

  /**
   * Two addresses with ten samples each in two cohorts: the first had five when the second founded its own, and then
   * reached ten as the representative of the earlier cohort. Flagging it does not reach the second.
   */
  lemma SmallStartSeparates(a: Analysis, g: Hash, h: Hash, five: seq<real>, ten: seq<real>, now: int)
    requires Lawful(a) && g != h && |five| == 5 && |ten| == 10
    ensures var ops := [DoIngest(g, five, now), DoIngest(h, ten, now), DoIngest(g, five, now)];
      var cl := RunFrom(KlDistance(a), EMPTY_CLUSTER, ops);
      && g in cl.records && h in cl.records
      && cl.records[g].profile.count == cl.records[h].profile.count == 10
      && cl.records[g].cohort == Some(1) && cl.records[h].cohort == Some(2)
      && !IsFlagged(Flag(cl, g).0, h)
  {
    hide KlDistance, Lawful, Ingest;
    var kl, p := KlDistance(a), UpdateAll(EMPTY, five);
    UpdateAllCount(EMPTY, five);
    UpdateAllCount(p, five);
    UpdateAllCount(EMPTY, ten);
    FirstAddress(a, g, five, now);
    SecondAddress(a, g, h, p, ten, now);
    FirstAgain(a, g, h, p, UpdateAll(EMPTY, ten), five, now);
    ThreeSteps(kl, DoIngest(g, five, now), DoIngest(h, ten, now), DoIngest(g, five, now));
    hide UpdateAll, RunFrom;
    var cl := Apart(g, h, UpdateAll(p, five), UpdateAll(EMPTY, ten), now);
    assert Placed(cl, g) && Placed(cl, h);
    FlagSpreads(cl, g);
    hide Flag;
  }

  lemma ThreeSteps(kl: Distance, x: Op, y: Op, z: Op)
    ensures RunFrom(kl, EMPTY_CLUSTER, [x, y, z]) == Apply(kl, Apply(kl, Apply(kl, EMPTY_CLUSTER, x), y), z)
  {
    hide Apply;
    hide RunFrom;
    OneStep(kl, EMPTY_CLUSTER, x);
    RunExtends(kl, EMPTY_CLUSTER, [x], y);
    RunExtends(kl, EMPTY_CLUSTER, [x, y], z);
    assert [x] + [y] == [x, y] && [x, y] + [z] == [x, y, z];
  }
}
