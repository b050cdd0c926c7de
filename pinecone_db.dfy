/** The managed-index store (`pinecone_db.py`): one shared index of records keyed by ID,
    each with its vector and metadata. An upsert replaces any record with the same ID. There
    is no transaction, so a request that fails leaves the earlier requests' effects in place. */
module PineconeDb {
  import opened Common
  import opened RecordIds

  const MaxVectorsPerPerson: int := 10

  /** `check_person_exists(..., threshold=0.65)`: a cosine-similarity threshold. */
  const DefaultThreshold: real := 0.65

  /** The `top_k` of the full scan in `list_people`. */
  const ScanLimit: nat := 5000

  datatype Metadata = Metadata(personId: int, vectorCount: int, lastChecked: Time, createdAt: Time)

  datatype Entry = Entry(values: Vector, meta: Metadata)

  /** One element of `list_people`'s result. */
  datatype PersonEntry = PersonEntry(id: int, lastSeen: Time, vectorCount: nat, hasVector: bool)

  /** Which request of `insert_vector_for_person` raises, if any. */
  datatype WriteFault = NoFault | QueryFault | DeleteFault | UpsertFault

  type Records = map<string, Entry>

  /** A record stored under the ID `person_{p}_vector_{n}` is person `p`'s vector number `n`,
      as every write of this module makes it. */
  ghost predicate IdsConsistent(records: Records)
  {
    forall p, n :: IdString(p, n) in records ==>
      records[IdString(p, n)].meta.personId == p && records[IdString(p, n)].meta.vectorCount == n
  }

  /** The keys of the records whose metadata names person `p`. */
  function KeysOf(records: Records, p: int): set<string>
  {
    set k | k in records && records[k].meta.personId == p
  }

  function CountOf(records: Records, p: int): nat
  {
    |KeysOf(records, p)|
  }

  function Min(a: int, b: int): int
  {
    if a < b then a else b
  }

  predicate Distinct(keys: seq<string>)
  {
    forall i, j :: 0 <= i < j < |keys| ==> keys[i] != keys[j]
  }

  /** A response of the query filtered on `person_id == p` with `top_k = limit`: distinct
      records of `p`, as many as `p` has up to `limit`, and all of them when that is enough. */
  ghost predicate IsPersonQuery(records: Records, p: int, limit: nat, matches: seq<string>)
  {
    (forall i :: 0 <= i < |matches| ==> matches[i] in records && records[matches[i]].meta.personId == p) &&
    Distinct(matches) &&
    |matches| == Min(CountOf(records, p), limit) &&
    (CountOf(records, p) <= limit ==> forall k :: k in KeysOf(records, p) ==> k in matches)
  }

  /** A response of the unfiltered query with `top_k = limit`: distinct records, as many as
      the index holds up to `limit`, all of them when that is enough; the order is the index's. */
  ghost predicate IsScan(records: Records, limit: nat, scan: seq<string>)
  {
    (forall i :: 0 <= i < |scan| ==> scan[i] in records) &&
    Distinct(scan) &&
    |scan| == Min(|records|, limit) &&
    (|records| <= limit ==> forall k :: k in records ==> k in scan)
  }

  /** `k` holds the highest score against `query` in the whole index. */
  ghost predicate IsTop(records: Records, query: Vector, score: (Vector, Vector) -> real, k: string)
  {
    k in records && forall j :: j in records ==> score(records[j].values, query) <= score(records[k].values, query)
  }

  // ---------------------------------------------------------------------------------
  // check_person_exists

  datatype Match = Match(score: real, meta: Metadata)

  /** The decision `check_person_exists` takes on the top-1 match: inclusive threshold, and the
      matched record's own `person_id` and `last_checked`. */
  function MatchVerdict(top: Option<Match>, threshold: real): (v: Verdict)
    ensures v.Found? <==> top.Some? && top.value.score >= threshold
    ensures v.Found? ==> v.personId == top.value.meta.personId && v.lastSeen == top.value.meta.lastChecked
  {
    match top
    case None => NotFound
    case Some(m) => if m.score >= threshold then Found(m.meta.lastChecked, m.meta.personId) else NotFound
  }

  // ---------------------------------------------------------------------------------
  // list_people and get_next_person_id

  /** The insertion-ordered dictionary `people_dict`: its keys in insertion order, and its entries. */
  datatype Grouping = Grouping(order: seq<int>, dict: map<int, PersonEntry>)

  /** Every key of `people_dict` appears once in its insertion order, and nothing else does. */
  predicate WellFormed(g: Grouping)
  {
    (forall i :: 0 <= i < |g.order| ==> g.order[i] in g.dict) &&
    (forall p :: p in g.dict ==> p in g.order)
  }

  /** One iteration of the loop of `list_people`: the first record of a person creates its entry
      with that record's `last_checked`; every record adds one to its person's count. */
  function GroupStep(g: Grouping, m: Metadata): (r: Grouping)
    ensures WellFormed(g) ==> WellFormed(r)
  {
    var p := m.personId;
    var g' := if p in g.dict then g
              else Grouping(g.order + [p], g.dict[p := PersonEntry(p, m.lastChecked, 0, true)]);
    Grouping(g'.order, g'.dict[p := g'.dict[p].(vectorCount := g'.dict[p].vectorCount + 1)])
  }

  /** `people_dict` after the loop of `list_people` has run over `scan`. */
  function GroupState(scan: seq<Metadata>): (g: Grouping)
    ensures WellFormed(g)
  {
    if scan == [] then Grouping([], map[]) else GroupStep(GroupState(scan[..|scan| - 1]), scan[|scan| - 1])
  }

  /** `list(people_dict.values())`. */
  function Grouped(scan: seq<Metadata>): seq<PersonEntry>
  {
    var g := GroupState(scan);
    ValuesInOrder(g.order, g.dict)
  }

  /** The entries of a dictionary in the insertion order of its keys. */
  function ValuesInOrder(order: seq<int>, dict: map<int, PersonEntry>): (vs: seq<PersonEntry>)
    requires forall i :: 0 <= i < |order| ==> order[i] in dict
    ensures |vs| == |order|
    ensures forall i :: 0 <= i < |order| ==> vs[i] == dict[order[i]]
  {
    seq(|order|, i requires 0 <= i < |order| => dict[order[i]])
  }

  /** The metadata of the scanned records, in scan order. */
  function MetasOf(records: Records, scan: seq<string>): (ms: seq<Metadata>)
    requires forall i :: 0 <= i < |scan| ==> scan[i] in records
    ensures |ms| == |scan|
  {
    seq(|scan|, i requires 0 <= i < |scan| => records[scan[i]].meta)
  }

  function Occurrences(scan: seq<Metadata>, p: int): (n: nat)
    ensures n <= |scan|
    ensures n == 0 <==> forall i :: 0 <= i < |scan| ==> scan[i].personId != p
  {
    if scan == [] then 0
    else Occurrences(scan[..|scan| - 1], p) + (if scan[|scan| - 1].personId == p then 1 else 0)
  }

  /** The position of the first scanned record of `p`. */
  function FirstSeen(scan: seq<Metadata>, p: int): (o: Option<nat>)
    ensures o.None? <==> Occurrences(scan, p) == 0
    ensures o.Some? ==> o.value < |scan| && scan[o.value].personId == p
    ensures o.Some? ==> forall i :: 0 <= i < o.value ==> scan[i].personId != p
  {
    if scan == [] then None
    else
      var prev := FirstSeen(scan[..|scan| - 1], p);
      if prev.Some? then prev
      else if scan[|scan| - 1].personId == p then Some(|scan| - 1)
      else None
  }

  function TotalCount(people: seq<PersonEntry>): int
  {
    if people == [] then 0 else TotalCount(people[..|people| - 1]) + people[|people| - 1].vectorCount
  }

  function SumCounts(order: seq<int>, dict: map<int, PersonEntry>): int
    requires forall i :: 0 <= i < |order| ==> order[i] in dict
  {
    if order == [] then 0 else SumCounts(order[..|order| - 1], dict) + dict[order[|order| - 1]].vectorCount
  }

  function IdsOf(people: seq<PersonEntry>): (ids: seq<int>)
    ensures |ids| == |people|
  {
    seq(|people|, i requires 0 <= i < |people| => people[i].id)
  }

  /** Python's `max` over a non-empty list. */
  function SeqMax(xs: seq<int>): (m: int)
    requires |xs| >= 1
    ensures m in xs
    ensures forall i :: 0 <= i < |xs| ==> xs[i] <= m
  {
    if |xs| == 1 then xs[0]
    else
      var prev := SeqMax(xs[..|xs| - 1]);
      assert prev in xs[..|xs| - 1];
      if xs[|xs| - 1] > prev then xs[|xs| - 1] else prev
  }

  /** What `get_next_person_id` returns for a listing: 1 when it is empty, else max id + 1. */
  function NextIdFrom(people: seq<PersonEntry>): int
  {
    if people == [] then 1 else SeqMax(IdsOf(people)) + 1
  }

  /** The person id `insert_new_person` uses: from the listing, or 1 when the listing raised. */
  function NewPersonId(records: Records, scan: seq<string>, listingAvailable: bool): int
    requires forall i :: 0 <= i < |scan| ==> scan[i] in records
  {
    if listingAvailable then NextIdFrom(Grouped(MetasOf(records, scan))) else 1
  }

  /** The upsert of `insert_new_person`: `person_{pid}_vector_1` with `vector_count = 1`. */
  function FirstRecord(records: Records, pid: int, vector: Vector, now: Time): Records
  {
    records[IdString(pid, 1) := Entry(vector, Metadata(pid, 1, now, now))]
  }

  // ---------------------------------------------------------------------------------
  // insert_vector_for_person

  /** `sorted(existing_vectors, key=last_checked)[0]`: Python's sort is stable, so of several
      records with the same timestamp the first in query order is taken. */
  function OldestAmong(records: Records, matches: seq<string>): (o: nat)
    requires |matches| >= 1
    requires forall i :: 0 <= i < |matches| ==> matches[i] in records
    ensures o < |matches|
    ensures forall i :: 0 <= i < |matches| ==>
              records[matches[o]].meta.lastChecked <= records[matches[i]].meta.lastChecked
    ensures forall i :: 0 <= i < o ==> records[matches[o]].meta.lastChecked < records[matches[i]].meta.lastChecked
  {
    if |matches| == 1 then 0
    else
      var prev := OldestAmong(records, matches[..|matches| - 1]);
      if records[matches[|matches| - 1]].meta.lastChecked < records[matches[prev]].meta.lastChecked
      then |matches| - 1
      else prev
  }

  /** `new_vector_number` as written: count + 1 below the cap, the cap itself otherwise. */
  function VectorNumber(found: nat, maxVectors: int): (n: int)
    ensures n == if found < maxVectors then found + 1 else maxVectors
  {
    var remaining := if found < maxVectors then found else maxVectors - 1;
    remaining + 1
  }

  /** The largest vector number among the matched records (0 when there are none). */
  function MaxNumber(records: Records, matches: seq<string>): (m: int)
    requires forall i :: 0 <= i < |matches| ==> matches[i] in records
    ensures m >= 0
    ensures forall i :: 0 <= i < |matches| ==> records[matches[i]].meta.vectorCount <= m
  {
    if matches == [] then 0
    else
      var prev := MaxNumber(records, matches[..|matches| - 1]);
      var last := records[matches[|matches| - 1]].meta.vectorCount;
      if last > prev then last else prev
  }

  /** The corrected vector number: one above every number among the person's records. */
  function RevisedNumber(records: Records, matches: seq<string>): int
    requires forall i :: 0 <= i < |matches| ==> matches[i] in records
  {
    1 + MaxNumber(records, matches)
  }

  /** The filtered query is sent (the index refuses a `top_k` below 1). */
  predicate QueryAnswered(fault: WriteFault, maxVectors: int)
  {
    fault != QueryFault && maxVectors >= 0
  }

  /** The index after the delete step: the oldest matched record goes when the count reaches the cap. */
  function Evicted(records: Records, matches: seq<string>, maxVectors: int): Records
    requires forall i :: 0 <= i < |matches| ==> matches[i] in records
  {
    if |matches| >= maxVectors && |matches| >= 1 then records - {matches[OldestAmong(records, matches)]}
    else records
  }

  /** The upsert of `person_{p}_vector_{n}` with `vector_count = n`. */
  function Written(records: Records, p: int, vector: Vector, now: Time, n: int): Records
  {
    records[IdString(p, n) := Entry(vector, Metadata(p, n, now, now))]
  }

  /** The outcome of `insert_vector_for_person` given the query's response `matches` and the
      vector number `n` it writes. A failing request re-raises; what earlier requests did stays. */
  function StepOutcome(records: Records, p: int, vector: Vector, now: Time, maxVectors: int,
                       matches: seq<string>, fault: WriteFault, n: int): (Result<()>, Records)
    requires forall i :: 0 <= i < |matches| ==> matches[i] in records
  {
    if !QueryAnswered(fault, maxVectors) then (Failure, records)
    else if |matches| >= maxVectors && |matches| == 0 then (Failure, records)
    else if |matches| >= maxVectors && fault == DeleteFault then (Failure, records)
    else
      var kept := Evicted(records, matches, maxVectors);
      if fault == UpsertFault then (Failure, kept) else (Success(()), Written(kept, p, vector, now, n))
  }

  // ---------------------------------------------------------------------------------
  // Lemmas: record keys

  lemma KeysOfDelete(records: Records, x: string, q: int)
    ensures KeysOf(records - {x}, q) == KeysOf(records, q) - {x}
  {
  }

  lemma KeysOfWrite(records: Records, p: int, vector: Vector, now: Time, n: int, q: int)
    ensures q == p ==> KeysOf(Written(records, p, vector, now, n), q) == KeysOf(records, q) + {IdString(p, n)}
    ensures q != p ==> KeysOf(Written(records, p, vector, now, n), q) == KeysOf(records, q) - {IdString(p, n)}
  {
  }

  /** A vector number above all of `p`'s numbers names no record yet. */
  lemma FreshKey(records: Records, p: int, n: int)
    requires IdsConsistent(records)
    requires forall k :: k in KeysOf(records, p) ==> records[k].meta.vectorCount < n
    ensures IdString(p, n) !in records
  {
    if IdString(p, n) in records {
    }
  }

  lemma WrittenKeepsIdsConsistent(records: Records, p: int, vector: Vector, now: Time, n: int)
    requires IdsConsistent(records)
    ensures IdsConsistent(Written(records, p, vector, now, n))
  {
    var after := Written(records, p, vector, now, n);
    forall p', n' | IdString(p', n') in after
      ensures after[IdString(p', n')].meta.personId == p' && after[IdString(p', n')].meta.vectorCount == n'
    {
      if IdString(p', n') == IdString(p, n) {
        IdStringInjective(p', n', p, n);
      }
    }
  }

  // ---------------------------------------------------------------------------------
  // Lemmas: the retention step, for any vector number

  /** Exactly one record is deleted iff the fetched count reaches the cap: a record of `p`
      with the smallest `last_checked` (over all of `p`'s records, as they all come back). */
  lemma StepDeletesOldestIffAtCap(records: Records, p: int, vector: Vector, now: Time, maxVectors: int,
                                  matches: seq<string>, n: int)
    requires maxVectors >= 0 && IsPersonQuery(records, p, maxVectors + 1, matches)
    requires CountOf(records, p) <= maxVectors + 1
    ensures |matches| < maxVectors ==>
              StepOutcome(records, p, vector, now, maxVectors, matches, NoFault, n) ==
              (Success(()), Written(records, p, vector, now, n))
    ensures 1 <= maxVectors <= |matches| ==>
              exists x :: x in KeysOf(records, p) &&
                (forall k :: k in KeysOf(records, p) ==> records[x].meta.lastChecked <= records[k].meta.lastChecked) &&
                StepOutcome(records, p, vector, now, maxVectors, matches, NoFault, n) ==
                (Success(()), Written(records - {x}, p, vector, now, n))
  {
    if 1 <= maxVectors <= |matches| {
      var o := OldestAmong(records, matches);
      var x := matches[o];
      forall k | k in KeysOf(records, p)
        ensures records[x].meta.lastChecked <= records[k].meta.lastChecked
      {
        var i :| 0 <= i < |matches| && matches[i] == k;
      }
      assert x in KeysOf(records, p);
    }
  }

  /** Records of every other person are untouched, whatever request fails. */
  lemma StepOthersUntouched(records: Records, p: int, vector: Vector, now: Time, maxVectors: int,
                            matches: seq<string>, fault: WriteFault, n: int, q: int)
    requires IdsConsistent(records) && q != p
    requires forall i :: 0 <= i < |matches| ==> matches[i] in records && records[matches[i]].meta.personId == p
    ensures var after := StepOutcome(records, p, vector, now, maxVectors, matches, fault, n).1;
            KeysOf(after, q) == KeysOf(records, q) &&
            forall k :: k in KeysOf(records, q) ==> after[k] == records[k]
  {
    var kept := Evicted(records, matches, maxVectors);
    var key := IdString(p, n);
    assert key in records ==> records[key].meta.personId == p;
    KeysOfWrite(kept, p, vector, now, n, q);
  }

  // ---------------------------------------------------------------------------------
  // Lemmas: the step as written, and its defect

  /** Cap preservation: at most `maxVectors` records of `p` before means at most that many
      after (the count may stay the same rather than grow when the new ID collides). */
  lemma AsWrittenKeepsCap(records: Records, p: int, vector: Vector, now: Time, maxVectors: int,
                          matches: seq<string>, fault: WriteFault)
    requires CountOf(records, p) <= maxVectors
    requires maxVectors >= 0 ==> IsPersonQuery(records, p, maxVectors + 1, matches)
    ensures CountOf(StepOutcome(records, p, vector, now, maxVectors, matches, fault,
                                VectorNumber(|matches|, maxVectors)).1, p) <= maxVectors
  {
    if QueryAnswered(fault, maxVectors) && !(|matches| >= maxVectors && (|matches| == 0 || fault == DeleteFault)) {
      var n := VectorNumber(|matches|, maxVectors);
      var kept := Evicted(records, matches, maxVectors);
      if |matches| >= maxVectors {
        var x := matches[OldestAmong(records, matches)];
        KeysOfDelete(records, x, p);
        assert x in KeysOf(records, p);
        assert |KeysOf(kept, p)| == CountOf(records, p) - 1;
      }
      KeysOfWrite(kept, p, vector, now, n, p);
      assert |KeysOf(kept, p) + {IdString(p, n)}| <= |KeysOf(kept, p)| + 1;
    }
  }

  /** The first insertion at the cap deletes the oldest record and then writes
      `person_{p}_vector_{max}`, overwriting the record already stored under that ID (the
      newest one): the person ends with `max - 1` records instead of `max`. */
  lemma AtCapOverwritesNewest(records: Records, p: int, vector: Vector, now: Time, maxVectors: int,
                              matches: seq<string>)
    requires IdsConsistent(records) && maxVectors >= 1
    requires IsPersonQuery(records, p, maxVectors + 1, matches)
    requires CountOf(records, p) == maxVectors
    requires IdString(p, maxVectors) in records
    requires matches[OldestAmong(records, matches)] != IdString(p, maxVectors)
    ensures var after := StepOutcome(records, p, vector, now, maxVectors, matches, NoFault,
                                     VectorNumber(|matches|, maxVectors)).1;
            CountOf(after, p) == maxVectors - 1 &&
            after[IdString(p, maxVectors)] == Entry(vector, Metadata(p, maxVectors, now, now))
  {
    var x := matches[OldestAmong(records, matches)];
    var key := IdString(p, maxVectors);
    var kept := records - {x};
    assert Evicted(records, matches, maxVectors) == kept;
    EvictedCount(records, p, maxVectors, matches);
    assert key in KeysOf(kept, p);
    KeysOfWrite(kept, p, vector, now, maxVectors, p);
    assert KeysOf(kept, p) + {key} == KeysOf(kept, p);
  }

  /** Below the cap by one, with `person_{p}_vector_{max}` present, the next insertion writes
      that same ID again: the count stays at `max - 1`, every other record of `p` is kept
      unchanged (the oldest ones are never evicted again), and only the newest is replaced. */
  lemma BelowCapOverwritesAgain(records: Records, p: int, vector: Vector, now: Time, maxVectors: int,
                                matches: seq<string>)
    requires IdsConsistent(records) && maxVectors >= 1
    requires IsPersonQuery(records, p, maxVectors + 1, matches)
    requires CountOf(records, p) == maxVectors - 1
    requires IdString(p, maxVectors) in records
    ensures var after := StepOutcome(records, p, vector, now, maxVectors, matches, NoFault,
                                     VectorNumber(|matches|, maxVectors)).1;
            CountOf(after, p) == maxVectors - 1 &&
            KeysOf(after, p) == KeysOf(records, p) &&
            forall k :: k in KeysOf(records, p) && k != IdString(p, maxVectors) ==> after[k] == records[k]
  {
    var key := IdString(p, maxVectors);
    assert StepOutcome(records, p, vector, now, maxVectors, matches, NoFault, VectorNumber(|matches|, maxVectors)).1
           == Written(records, p, vector, now, maxVectors);
    assert key in KeysOf(records, p);
    KeysOfWrite(records, p, vector, now, maxVectors, p);
    assert KeysOf(records, p) + {key} == KeysOf(records, p);
  }

  // ---------------------------------------------------------------------------------
  // Lemmas: the corrected step

  /** The delete step removes one of `p`'s records exactly when the fetched count reaches the cap. */
  lemma EvictedCount(records: Records, p: int, maxVectors: int, matches: seq<string>)
    requires maxVectors >= 0 && IsPersonQuery(records, p, maxVectors + 1, matches)
    ensures Evicted(records, matches, maxVectors).Keys <= records.Keys
    ensures CountOf(Evicted(records, matches, maxVectors), p) ==
            if |matches| >= maxVectors && |matches| >= 1 then CountOf(records, p) - 1 else CountOf(records, p)
  {
    if |matches| >= maxVectors && |matches| >= 1 {
      var x := matches[OldestAmong(records, matches)];
      KeysOfDelete(records, x, p);
      assert x in KeysOf(records, p);
    }
  }

  /** Writing under an ID that is not in use gives the person one record more. */
  lemma WriteFreshCount(records: Records, p: int, vector: Vector, now: Time, n: int)
    requires IdString(p, n) !in records
    ensures CountOf(Written(records, p, vector, now, n), p) == CountOf(records, p) + 1
  {
    KeysOfWrite(records, p, vector, now, n, p);
  }

  /** The corrected vector number names no record yet. */
  lemma RevisedKeyIsFresh(records: Records, p: int, maxVectors: int, matches: seq<string>)
    requires IdsConsistent(records) && maxVectors >= 0
    requires IsPersonQuery(records, p, maxVectors + 1, matches)
    requires CountOf(records, p) <= maxVectors + 1
    ensures IdString(p, RevisedNumber(records, matches)) !in records
  {
    var n := RevisedNumber(records, matches);
    forall k | k in KeysOf(records, p) ensures records[k].meta.vectorCount < n {
      var i :| 0 <= i < |matches| && matches[i] == k;
    }
    FreshKey(records, p, n);
  }

  /** With the new vector numbered one above every number the person already uses, the ID is
      fresh: below the cap the person gains a record, at the cap the oldest is replaced, so the
      count rises to the cap and stays there. */
  lemma RevisedFillsToCap(records: Records, p: int, vector: Vector, now: Time, maxVectors: int,
                          matches: seq<string>)
    requires IdsConsistent(records) && maxVectors >= 1
    requires IsPersonQuery(records, p, maxVectors + 1, matches)
    requires CountOf(records, p) <= maxVectors
    ensures IdString(p, RevisedNumber(records, matches)) !in records
    ensures var after := StepOutcome(records, p, vector, now, maxVectors, matches, NoFault,
                                     RevisedNumber(records, matches)).1;
            CountOf(after, p) == (if CountOf(records, p) < maxVectors then CountOf(records, p) + 1 else maxVectors)
  {
    var n := RevisedNumber(records, matches);
    RevisedKeyIsFresh(records, p, maxVectors, matches);
    EvictedCount(records, p, maxVectors, matches);
    var kept := Evicted(records, matches, maxVectors);
    assert IdString(p, n) !in kept;
    WriteFreshCount(kept, p, vector, now, n);
  }

  // ---------------------------------------------------------------------------------
  // Lemmas: the listing

  predicate DistinctIds(xs: seq<int>)
  {
    forall i, j :: 0 <= i < j < |xs| ==> xs[i] != xs[j]
  }

  lemma {:induction false} SumCountsUnrelated(order: seq<int>, dict: map<int, PersonEntry>, p: int, e: PersonEntry)
    requires forall i :: 0 <= i < |order| ==> order[i] in dict && order[i] != p
    ensures SumCounts(order, dict[p := e]) == SumCounts(order, dict)
    decreases |order|
  {
    if order != [] {
      SumCountsUnrelated(order[..|order| - 1], dict, p, e);
    }
  }

  lemma {:induction false} SumCountsUpdate(order: seq<int>, dict: map<int, PersonEntry>, p: int, e: PersonEntry)
    requires forall i :: 0 <= i < |order| ==> order[i] in dict
    requires DistinctIds(order) && p in dict && p in order
    ensures SumCounts(order, dict[p := e]) == SumCounts(order, dict) - dict[p].vectorCount + e.vectorCount
    decreases |order|
  {
    var front := order[..|order| - 1];
    if order[|order| - 1] == p {
      SumCountsUnrelated(front, dict, p, e);
    } else {
      assert p in front;
      SumCountsUpdate(front, dict, p, e);
    }
  }

  /** A step adds its person to the keys, appending it to the order if it is new. */
  lemma StepKeys(g: Grouping, m: Metadata)
    requires WellFormed(g) && DistinctIds(g.order)
    ensures DistinctIds(GroupStep(g, m).order)
    ensures GroupStep(g, m).dict.Keys == g.dict.Keys + {m.personId}
    ensures m.personId in g.dict ==> GroupStep(g, m).order == g.order
    ensures m.personId !in g.dict ==> GroupStep(g, m).order == g.order + [m.personId]
  {
    if m.personId !in g.dict {
      forall i | 0 <= i < |g.order| ensures g.order[i] != m.personId {
        assert g.order[i] in g.dict;
      }
    }
  }

  /** A step adds one to the sum of the counts. */
  lemma StepSum(g: Grouping, m: Metadata)
    requires WellFormed(g) && DistinctIds(g.order)
    ensures SumCounts(GroupStep(g, m).order, GroupStep(g, m).dict) == SumCounts(g.order, g.dict) + 1
  {
    if m.personId in g.dict {
      StepSumKnown(g, m);
    } else {
      StepSumNew(g, m);
    }
  }

  lemma StepSumKnown(g: Grouping, m: Metadata)
    requires WellFormed(g) && DistinctIds(g.order) && m.personId in g.dict
    ensures SumCounts(GroupStep(g, m).order, GroupStep(g, m).dict) == SumCounts(g.order, g.dict) + 1
  {
    var p := m.personId;
    var e := g.dict[p].(vectorCount := g.dict[p].vectorCount + 1);
    assert GroupStep(g, m) == Grouping(g.order, g.dict[p := e]);
    assert p in g.order;
    SumCountsUpdate(g.order, g.dict, p, e);
  }

  lemma StepSumNew(g: Grouping, m: Metadata)
    requires WellFormed(g) && m.personId !in g.dict
    ensures SumCounts(GroupStep(g, m).order, GroupStep(g, m).dict) == SumCounts(g.order, g.dict) + 1
  {
    var p := m.personId;
    var e := PersonEntry(p, m.lastChecked, 1, true);
    var order := g.order + [p];
    assert GroupStep(g, m) == Grouping(order, g.dict[p := e]);
    forall i | 0 <= i < |g.order| ensures g.order[i] in g.dict && g.order[i] != p {
      assert g.order[i] in g.dict;
    }
    SumCountsUnrelated(g.order, g.dict, p, e);
    assert order[..|g.order|] == g.order;
  }

  /** The keys of `people_dict` are exactly the scanned person ids, each once in the order. */
  lemma {:induction false} GroupKeys(scan: seq<Metadata>)
    ensures DistinctIds(GroupState(scan).order)
    ensures forall q :: q in GroupState(scan).dict <==> Occurrences(scan, q) > 0
    decreases |scan|
  {
    if scan != [] {
      GroupKeys(scan[..|scan| - 1]);
      StepKeys(GroupState(scan[..|scan| - 1]), scan[|scan| - 1]);
    }
  }

  /** An entry of `people_dict` as the loop leaves it for person `p`. */
  ghost predicate EntryFits(scan: seq<Metadata>, p: int, e: PersonEntry)
  {
    e.id == p && e.hasVector && e.vectorCount == Occurrences(scan, p) &&
    FirstSeen(scan, p).Some? && e.lastSeen == scan[FirstSeen(scan, p).value].lastChecked
  }

  lemma {:induction false} GroupEntries(scan: seq<Metadata>)
    ensures forall q :: q in GroupState(scan).dict ==> EntryFits(scan, q, GroupState(scan).dict[q])
    decreases |scan|
  {
    if scan != [] {
      var s := scan[..|scan| - 1];
      GroupEntries(s);
      GroupKeys(s);
      var g := GroupState(s);
      forall q | q in GroupState(scan).dict ensures EntryFits(scan, q, GroupState(scan).dict[q]) {
        if q in g.dict {
          assert EntryFits(s, q, g.dict[q]);
          assert scan[FirstSeen(s, q).value] == s[FirstSeen(s, q).value];
        }
      }
    }
  }

  /** The order of `people_dict` is the order of first appearance in the scan. */
  ghost predicate FirstSeenOrdered(scan: seq<Metadata>, order: seq<int>)
  {
    forall i, j :: 0 <= i < j < |order| ==>
      FirstSeen(scan, order[i]).Some? && FirstSeen(scan, order[j]).Some? &&
      FirstSeen(scan, order[i]).value < FirstSeen(scan, order[j]).value
  }

  lemma {:induction false} GroupOrder(scan: seq<Metadata>)
    ensures FirstSeenOrdered(scan, GroupState(scan).order)
    decreases |scan|
  {
    if scan != [] {
      var s := scan[..|scan| - 1];
      GroupOrder(s);
      GroupKeys(s);
      var g := GroupState(s);
      StepKeys(g, scan[|scan| - 1]);
      forall i | 0 <= i < |g.order|
        ensures FirstSeen(s, g.order[i]).Some? && FirstSeen(scan, g.order[i]) == FirstSeen(s, g.order[i])
      {
        assert g.order[i] in g.dict;
      }
    }
  }

  lemma {:induction false} GroupSum(scan: seq<Metadata>)
    ensures SumCounts(GroupState(scan).order, GroupState(scan).dict) == |scan|
    decreases |scan|
  {
    if scan != [] {
      GroupSum(scan[..|scan| - 1]);
      GroupKeys(scan[..|scan| - 1]);
      StepSum(GroupState(scan[..|scan| - 1]), scan[|scan| - 1]);
    }
  }

  lemma {:induction false} TotalOfGrouped(order: seq<int>, dict: map<int, PersonEntry>)
    requires forall i :: 0 <= i < |order| ==> order[i] in dict
    ensures TotalCount(ValuesInOrder(order, dict)) == SumCounts(order, dict)
    decreases |order|
  {
    var people := ValuesInOrder(order, dict);
    if order != [] {
      var front := order[..|order| - 1];
      TotalOfGrouped(front, dict);
      assert people[..|people| - 1] == ValuesInOrder(front, dict);
    }
  }

  /** Every scanned person id has an entry in the listing. */
  lemma GroupedCoversScan(scan: seq<Metadata>)
    ensures forall k :: 0 <= k < |scan| ==>
              exists i :: 0 <= i < |Grouped(scan)| && Grouped(scan)[i].id == scan[k].personId
  {
    var g := GroupState(scan);
    GroupKeys(scan);
    GroupEntries(scan);
    forall k | 0 <= k < |scan|
      ensures exists i :: 0 <= i < |Grouped(scan)| && Grouped(scan)[i].id == scan[k].personId
    {
      var p := scan[k].personId;
      assert Occurrences(scan, p) > 0;
      var i :| 0 <= i < |g.order| && g.order[i] == p;
      assert EntryFits(scan, p, g.dict[p]);
      assert Grouped(scan)[i].id == p;
    }
  }

  /** Each entry of the listing describes a person id that was scanned. */
  lemma GroupedEntriesFit(scan: seq<Metadata>)
    ensures forall i :: 0 <= i < |Grouped(scan)| ==> EntryFits(scan, Grouped(scan)[i].id, Grouped(scan)[i])
  {
    var g := GroupState(scan);
    GroupEntries(scan);
    forall i | 0 <= i < |Grouped(scan)| ensures EntryFits(scan, Grouped(scan)[i].id, Grouped(scan)[i]) {
      assert Grouped(scan)[i] == g.dict[g.order[i]];
      assert EntryFits(scan, g.order[i], g.dict[g.order[i]]);
    }
  }

  /** `list_people` makes one entry per distinct `person_id` among the scanned records, in the
      order of their first appearance; each entry counts that person's scanned records and
      takes `last_seen` from the first of them; the counts add up to the number scanned. */
  lemma GroupedMeaning(scan: seq<Metadata>)
    ensures forall i, j :: 0 <= i < j < |Grouped(scan)| ==> Grouped(scan)[i].id != Grouped(scan)[j].id
    ensures forall k :: 0 <= k < |scan| ==>
              exists i :: 0 <= i < |Grouped(scan)| && Grouped(scan)[i].id == scan[k].personId
    ensures forall i :: 0 <= i < |Grouped(scan)| ==> EntryFits(scan, Grouped(scan)[i].id, Grouped(scan)[i])
    ensures FirstSeenOrdered(scan, IdsOf(Grouped(scan)))
    ensures TotalCount(Grouped(scan)) == |scan|
  {
    GroupedDistinctInOrder(scan);
    GroupedCoversScan(scan);
    GroupedEntriesFit(scan);
    GroupedTotal(scan);
  }

  lemma GroupedDistinctInOrder(scan: seq<Metadata>)
    ensures forall i, j :: 0 <= i < j < |Grouped(scan)| ==> Grouped(scan)[i].id != Grouped(scan)[j].id
    ensures FirstSeenOrdered(scan, IdsOf(Grouped(scan)))
  {
    GroupKeys(scan);
    GroupOrder(scan);
    IdsOfGrouped(scan);
    var ids := IdsOf(Grouped(scan));
    assert forall i :: 0 <= i < |Grouped(scan)| ==> ids[i] == Grouped(scan)[i].id;
  }

  lemma GroupedTotal(scan: seq<Metadata>)
    ensures TotalCount(Grouped(scan)) == |scan|
  {
    GroupSum(scan);
    TotalOfGrouped(GroupState(scan).order, GroupState(scan).dict);
  }

  /** The ids of the listing are the keys of `people_dict` in insertion order. */
  lemma IdsOfGrouped(scan: seq<Metadata>)
    ensures IdsOf(Grouped(scan)) == GroupState(scan).order
  {
    var g := GroupState(scan);
    var people := Grouped(scan);
    GroupEntries(scan);
    forall i | 0 <= i < |people| ensures IdsOf(people)[i] == g.order[i] {
      assert people[i] == g.dict[g.order[i]];
      assert EntryFits(scan, g.order[i], g.dict[g.order[i]]);
    }
  }

  /** With every record in the scan, the next person id is above every stored person id. */
  lemma NextIdAboveAll(records: Records, scan: seq<string>)
    requires IsScan(records, ScanLimit, scan) && |records| <= ScanLimit
    ensures forall k :: k in records ==> records[k].meta.personId < NextIdFrom(Grouped(MetasOf(records, scan)))
    ensures records == map[] ==> NextIdFrom(Grouped(MetasOf(records, scan))) == 1
  {
    var metas := MetasOf(records, scan);
    var people := Grouped(metas);
    GroupedCoversScan(metas);
    forall k | k in records ensures records[k].meta.personId < NextIdFrom(people) {
      var j :| 0 <= j < |scan| && scan[j] == k;
      assert metas[j].personId == records[k].meta.personId;
      var i :| 0 <= i < |people| && people[i].id == metas[j].personId;
      assert IdsOf(people)[i] == people[i].id;
    }
    if records == map[] {
      assert scan == [];
      assert metas == [];
    }
  }

  /** With the listing complete, `insert_new_person` writes under an ID no record has, and the
      new person then owns exactly that one record. */
  lemma NewPersonIsFresh(records: Records, scan: seq<string>, vector: Vector, now: Time)
    requires IdsConsistent(records) && IsScan(records, ScanLimit, scan) && |records| <= ScanLimit
    ensures var pid := NewPersonId(records, scan, true);
            IdString(pid, 1) !in records && KeysOf(FirstRecord(records, pid, vector, now), pid) == {IdString(pid, 1)}
  {
    var pid := NewPersonId(records, scan, true);
    NextIdAboveAll(records, scan);
    assert KeysOf(records, pid) == {};
    FreshKey(records, pid, 1);
    KeysOfWrite(records, pid, vector, now, 1, pid);
  }

  // ---------------------------------------------------------------------------------
  // List-processing loops of the module (no index access)

  /** The loop of `list_people` over the query response. */
  method GroupByPerson(scan: seq<Metadata>) returns (people: seq<PersonEntry>)
    ensures people == Grouped(scan)
  {
    var order: seq<int> := [];
    var dict: map<int, PersonEntry> := map[];
    var k := 0;
    while k < |scan|
      invariant 0 <= k <= |scan|
      invariant Grouping(order, dict) == GroupState(scan[..k])
    {
      assert scan[..k + 1][..k] == scan[..k];
      var p := scan[k].personId;
      if p !in dict {
        order := order + [p];
        dict := dict[p := PersonEntry(p, scan[k].lastChecked, 0, true)];
      }
      dict := dict[p := dict[p].(vectorCount := dict[p].vectorCount + 1)];
      k := k + 1;
    }
    assert scan[..|scan|] == scan;
    people := ValuesInOrder(order, dict);
  }

  /** The body of `get_next_person_id` after the listing: collect the ids, take max + 1. */
  method NextPersonId(people: seq<PersonEntry>) returns (id: int)
    ensures id == NextIdFrom(people)
    ensures forall i :: 0 <= i < |people| ==> people[i].id < id
  {
    if people == [] {
      return 1;
    }
    var personIds: seq<int> := [];
    var i := 0;
    while i < |people|
      invariant 0 <= i <= |people|
      invariant personIds == IdsOf(people[..i])
    {
      personIds := personIds + [people[i].id];
      i := i + 1;
    }
    assert people[..|people|] == people;
    id := SeqMax(personIds) + 1;
    assert forall j :: 0 <= j < |people| ==> personIds[j] == people[j].id;
  }

  // ---------------------------------------------------------------------------------
  // The index

  class Index {
    var records: Records

    ghost predicate Valid()
      reads this
    {
      IdsConsistent(records)
    }

    constructor ()
      ensures Valid() && records == map[]
    {
      records := map[];
    }

    /** The query filtered on `person_id`, with `top_k = limit`. */
    method QueryByPerson(p: int, limit: nat) returns (matches: seq<string>)
      ensures IsPersonQuery(records, p, limit, matches)
    {
      var pending := KeysOf(records, p);
      matches := [];
      while |matches| < limit && pending != {}
        invariant pending <= KeysOf(records, p)
        invariant forall i :: 0 <= i < |matches| ==> matches[i] in KeysOf(records, p) && matches[i] !in pending
        invariant Distinct(matches)
        invariant forall k :: k in KeysOf(records, p) ==> k in pending || k in matches
        invariant |pending| + |matches| == CountOf(records, p)
        invariant |matches| <= limit
        decreases |pending|
      {
        var k :| k in pending;
        matches := matches + [k];
        pending := pending - {k};
      }
    }

    /** The unfiltered query of `list_people`, with `top_k = limit`. */
    method ScanAll(limit: nat) returns (scan: seq<string>)
      ensures IsScan(records, limit, scan)
    {
      var pending := records.Keys;
      scan := [];
      while |scan| < limit && pending != {}
        invariant pending <= records.Keys
        invariant forall i :: 0 <= i < |scan| ==> scan[i] in records && scan[i] !in pending
        invariant Distinct(scan)
        invariant forall k :: k in records ==> k in pending || k in scan
        invariant |pending| + |scan| == |records|
        invariant |scan| <= limit
        decreases |pending|
      {
        var k :| k in pending;
        scan := scan + [k];
        pending := pending - {k};
      }
    }

    /** The query with `top_k = 1`: a record with the highest score, none when the index is empty. */
    method QueryTop1(query: Vector, score: (Vector, Vector) -> real) returns (top: Option<string>)
      ensures top.None? <==> records == map[]
      ensures top.Some? ==> IsTop(records, query, score, top.value)
    {
      var pending := records.Keys;
      top := None;
      while pending != {}
        invariant pending <= records.Keys
        invariant top.None? <==> pending == records.Keys
        invariant top.Some? ==> top.value in records && top.value !in pending
        invariant top.Some? ==> forall k :: k in records && k !in pending ==>
                    score(records[k].values, query) <= score(records[top.value].values, query)
        decreases |pending|
      {
        var k :| k in pending;
        if top.None? || score(records[k].values, query) > score(records[top.value].values, query) {
          top := Some(k);
        }
        pending := pending - {k};
      }
    }

    /** `check_person_exists`: a match iff the best score reaches the threshold; the verdict
        carries the best record's own `person_id` and `last_checked`. */
    method CheckPersonExists(query: Vector, threshold: real, score: (Vector, Vector) -> real, available: bool)
      returns (r: Result<Verdict>)
      ensures !available <==> r == Failure
      ensures available ==> (r.value.Found? <==>
                exists k :: k in records && score(records[k].values, query) >= threshold)
      ensures available && r.value.Found? ==>
                exists k :: IsTop(records, query, score, k) &&
                            r.value == Found(records[k].meta.lastChecked, records[k].meta.personId)
    {
      if !available {
        return Failure;
      }
      var top := QueryTop1(query, score);
      var best: Option<Match> := None;
      if top.Some? {
        var e := records[top.value];
        best := Some(Match(score(e.values, query), e.meta));
      }
      r := Success(MatchVerdict(best, threshold));
    }

    /** `list_people`: scan the index, then group the records by `person_id`. */
    method ListPeople(available: bool) returns (r: Result<seq<PersonEntry>>, ghost scan: seq<string>)
      ensures available ==> IsScan(records, ScanLimit, scan)
      ensures !available ==> scan == []
      ensures r == if available then Success(Grouped(MetasOf(records, scan))) else Failure
    {
      scan := [];
      if !available {
        return Failure, scan;
      }
      var found := ScanAll(ScanLimit);
      scan := found;
      var metas := MetasOf(records, found);
      var people := GroupByPerson(metas);
      r := Success(people);
    }

    /** `get_next_person_id`: 1 for an empty listing or when the listing raises, else max id + 1. */
    method GetNextPersonId(available: bool) returns (id: int, ghost scan: seq<string>)
      ensures available ==> IsScan(records, ScanLimit, scan)
      ensures !available ==> scan == []
      ensures id == NewPersonId(records, scan, available)
    {
      var listed;
      listed, scan := ListPeople(available);
      if listed.Failure? {
        return 1, scan;
      }
      id := NextPersonId(listed.value);
    }

    /** `insert_new_person`: allocate the id, then upsert `person_{pid}_vector_1`. */
    method InsertNewPerson(vector: Vector, now: Time, listingAvailable: bool, upsertAvailable: bool)
      returns (r: Result<int>, ghost scan: seq<string>)
      requires Valid()
      modifies this
      ensures Valid()
      ensures listingAvailable ==> IsScan(old(records), ScanLimit, scan)
      ensures !listingAvailable ==> scan == []
      ensures !upsertAvailable ==> r == Failure && records == old(records)
      ensures upsertAvailable ==>
                r == Success(NewPersonId(old(records), scan, listingAvailable)) &&
                records == FirstRecord(old(records), NewPersonId(old(records), scan, listingAvailable), vector, now)
    {
      var personId;
      personId, scan := GetNextPersonId(listingAvailable);
      if !upsertAvailable {
        return Failure, scan;
      }
      WrittenKeepsIdsConsistent(records, personId, vector, now, 1);
      records := records[IdString(personId, 1) := Entry(vector, Metadata(personId, 1, now, now))];
      r := Success(personId);
    }

    /** `sorted(existing_vectors, key=last_checked)[0]`, as a position in the query response. */
    method OldestMatch(matches: seq<string>) returns (o: nat)
      requires |matches| >= 1
      requires forall i :: 0 <= i < |matches| ==> matches[i] in records
      ensures o == OldestAmong(records, matches)
    {
      o := 0;
      var i := 1;
      while i < |matches|
        invariant 1 <= i <= |matches|
        invariant o == OldestAmong(records, matches[..i])
      {
        assert matches[..i + 1][..i] == matches[..i];
        if records[matches[i]].meta.lastChecked < records[matches[o]].meta.lastChecked {
          o := i;
        }
        i := i + 1;
      }
      assert matches[..|matches|] == matches;
    }

    /** `insert_vector_for_person` as written: query the person's records, delete the oldest
        when the count reaches the cap, upsert `person_{p}_vector_{n}` with `n` from the count. */
    method InsertVectorForPerson(personId: int, vector: Vector, now: Time, maxVectors: int, fault: WriteFault)
      returns (r: Result<()>, ghost matches: seq<string>)
      requires Valid()
      modifies this
      ensures Valid()
      ensures QueryAnswered(fault, maxVectors) ==> IsPersonQuery(old(records), personId, maxVectors + 1, matches)
      ensures !QueryAnswered(fault, maxVectors) ==> matches == []
      ensures (r, records) == StepOutcome(old(records), personId, vector, now, maxVectors, matches, fault,
                                          VectorNumber(|matches|, maxVectors))
    {
      matches := [];
      if !QueryAnswered(fault, maxVectors) {
        return Failure, matches;
      }
      var existing := QueryByPerson(personId, maxVectors + 1);
      matches := existing;
      if |existing| >= maxVectors {
        if |existing| == 0 {
          return Failure, matches;
        }
        var oldest := OldestMatch(existing);
        if fault == DeleteFault {
          return Failure, matches;
        }
        records := records - {existing[oldest]};
      }
      var remaining := if |existing| < maxVectors then |existing| else maxVectors - 1;
      var n := remaining + 1;
      if fault == UpsertFault {
        return Failure, matches;
      }
      WrittenKeepsIdsConsistent(records, personId, vector, now, n);
      records := records[IdString(personId, n) := Entry(vector, Metadata(personId, n, now, now))];
      r := Success(());
    }

    /** `insert_vector_for_person` corrected: the new vector is numbered one above every number
        the person's records carry, so the upsert never replaces a retained record. */
    method InsertVectorForPersonRevised(personId: int, vector: Vector, now: Time, maxVectors: int, fault: WriteFault)
      returns (r: Result<()>, ghost matches: seq<string>)
      requires Valid()
      modifies this
      ensures Valid()
      ensures QueryAnswered(fault, maxVectors) ==> IsPersonQuery(old(records), personId, maxVectors + 1, matches)
      ensures !QueryAnswered(fault, maxVectors) ==> matches == []
      ensures (r, records) == StepOutcome(old(records), personId, vector, now, maxVectors, matches, fault,
                                          RevisedNumber(old(records), matches))
    {
      matches := [];
      if !QueryAnswered(fault, maxVectors) {
        return Failure, matches;
      }
      var existing := QueryByPerson(personId, maxVectors + 1);
      matches := existing;
      var n := RevisedNumber(records, existing);
      if |existing| >= maxVectors {
        if |existing| == 0 {
          return Failure, matches;
        }
        var oldest := OldestMatch(existing);
        if fault == DeleteFault {
          return Failure, matches;
        }
        records := records - {existing[oldest]};
      }
      if fault == UpsertFault {
        return Failure, matches;
      }
      WrittenKeepsIdsConsistent(records, personId, vector, now, n);
      records := records[IdString(personId, n) := Entry(vector, Metadata(personId, n, now, now))];
      r := Success(());
    }
  }

  /** Listing an empty index gives no people, so the first person id is 1. */
  lemma EmptyIndexListing(scan: seq<string>)
    requires IsScan(map[], ScanLimit, scan)
    ensures scan == [] && Grouped(MetasOf(map[], scan)) == [] && NewPersonId(map[], scan, true) == 1
  {
    assert MetasOf(map[], scan) == [];
  }

  /** Listing an index of one record gives its person with one vector. */
  lemma SingleRecordListing(key: string, e: Entry, scan: seq<string>)
    requires IsScan(map[key := e], ScanLimit, scan)
    ensures Grouped(MetasOf(map[key := e], scan)) == [PersonEntry(e.meta.personId, e.meta.lastChecked, 1, true)]
  {
    assert scan[0] == key;
    var metas := MetasOf(map[key := e], scan);
    assert metas == [e.meta];
    assert metas[..0] == [];
    var p := e.meta.personId;
    var entry := PersonEntry(p, e.meta.lastChecked, 1, true);
    assert GroupState(metas) == GroupStep(Grouping([], map[]), e.meta);
    assert GroupState(metas) == Grouping([p], map[p := entry]);
    assert ValuesInOrder([p], map[p := entry]) == [entry];
  }

  /** The sample flow of the setup script: an empty index finds nothing; the first person gets
      id 1; the same vector is then found with that person's timestamp; the listing shows one
      person with one vector. */
  method SetupScenario(v: Vector, now: Time, score: (Vector, Vector) -> real)
    returns (before: Result<Verdict>, added: Result<int>, after: Result<Verdict>, people: Result<seq<PersonEntry>>)
    requires score(v, v) >= DefaultThreshold
    ensures before == Success(NotFound)
    ensures added == Success(1)
    ensures after == Success(Found(now, 1))
    ensures people == Success([PersonEntry(1, now, 1, true)])
  {
    var index := new Index();
    before := index.CheckPersonExists(v, DefaultThreshold, score, true);
    ghost var scan;
    added, scan := index.InsertNewPerson(v, now, true, true);
    EmptyIndexListing(scan);
    var key := IdString(1, 1);
    var e := Entry(v, Metadata(1, 1, now, now));
    assert index.records == map[key := e];
    after := index.CheckPersonExists(v, DefaultThreshold, score, true);
    assert IsTop(index.records, v, score, key);
    people, scan := index.ListPeople(true);
    SingleRecordListing(key, e, scan);
  }
}
