/** The relational store (`face_db.py`): a `persons` table and a `vectors` table of rows
    `(vector_id, person_id, vector, last_checked)`. Each public function opens its own
    connection and runs one transaction: either every statement commits or none does. */
module FaceDb {
  import opened Common

  /** `check_person_exists(..., threshold=0.65)`: a distance threshold. */
  const DefaultThreshold: real := 0.65

  /** `insert_vector_for_person(..., max_vectors=10)`. */
  const DefaultMaxVectors: int := 10

  datatype Row = Row(vectorId: int, personId: int, vector: Vector, lastChecked: Time)

  /** The rows of person `p`, in table order (`SELECT ... FROM vectors WHERE person_id = p`). */
  function RowsOf(rows: seq<Row>, p: int): (r: seq<Row>)
    ensures |r| <= |rows|
    ensures forall k :: 0 <= k < |r| ==> r[k].personId == p
  {
    if rows == [] then []
    else RowsOf(rows[..|rows| - 1], p) + (if rows[|rows| - 1].personId == p then [rows[|rows| - 1]] else [])
  }

  /** `SELECT COUNT(*) FROM vectors WHERE person_id = p`. */
  function CountOf(rows: seq<Row>, p: int): nat
  {
    |RowsOf(rows, p)|
  }

  function Times(rs: seq<Row>): (ts: seq<Time>)
  {
    seq(|rs|, k requires 0 <= k < |rs| => rs[k].lastChecked)
  }

  /** The `last_checked` values of person `p`'s rows, in table order. */
  function TimesOf(rows: seq<Row>, p: int): seq<Time>
  {
    Times(RowsOf(rows, p))
  }

  function RemoveAt(rows: seq<Row>, i: nat): (r: seq<Row>)
    requires i < |rows|
  {
    rows[..i] + rows[i + 1..]
  }

  /** The row that `ORDER BY last_checked ASC LIMIT 1` picks among person `p`'s rows. The
      database leaves the choice among equal timestamps open; the model takes the first in
      table order. */
  function OldestIn(rows: seq<Row>, p: int): (o: Option<nat>)
    ensures o.None? <==> forall j :: 0 <= j < |rows| ==> rows[j].personId != p
    ensures o.Some? ==> o.value < |rows| && rows[o.value].personId == p
    ensures o.Some? ==> forall j :: 0 <= j < |rows| && rows[j].personId == p ==>
                          rows[o.value].lastChecked <= rows[j].lastChecked
    ensures o.Some? ==> forall j :: 0 <= j < o.value && rows[j].personId == p ==>
                          rows[o.value].lastChecked < rows[j].lastChecked
  {
    if rows == [] then None
    else
      var prev := OldestIn(rows[..|rows| - 1], p);
      var last := rows[|rows| - 1];
      if last.personId == p && (prev.None? || last.lastChecked < rows[prev.value].lastChecked)
      then Some(|rows| - 1)
      else prev
  }

  /** The table after step 2 of `insert_vector_for_person`: the oldest row of `p` is deleted
      when the count is at or above the cap (and there is a row to delete). */
  function AfterEviction(rows: seq<Row>, p: int, maxVectors: int): seq<Row>
  {
    if CountOf(rows, p) >= maxVectors then
      match OldestIn(rows, p)
      case Some(i) => RemoveAt(rows, i)
      case None => rows
    else rows
  }

  /** The table after a committed `insert_vector_for_person`: eviction, then one new row. */
  function Retain(rows: seq<Row>, p: int, vector: Vector, now: Time, maxVectors: int, newId: int): seq<Row>
  {
    AfterEviction(rows, p, maxVectors) + [Row(newId, p, vector, now)]
  }

  /** The row nearest to `query` over the whole table (`vector <-> query`, smallest first).
      The database leaves the choice among equal distances open; the model takes the first in
      table order. */
  function NearestIn(rows: seq<Row>, query: Vector, dist: (Vector, Vector) -> real): (o: Option<nat>)
    ensures o.None? <==> rows == []
    ensures o.Some? ==> o.value < |rows|
    ensures o.Some? ==> forall j :: 0 <= j < |rows| ==> dist(rows[o.value].vector, query) <= dist(rows[j].vector, query)
  {
    if rows == [] then None
    else
      var prev := NearestIn(rows[..|rows| - 1], query, dist);
      var last := rows[|rows| - 1];
      if prev.None? || dist(last.vector, query) < dist(rows[prev.value].vector, query)
      then Some(|rows| - 1)
      else prev
  }

  /** `SELECT MAX(last_checked) FROM vectors WHERE person_id = p` (NULL when p has no rows). */
  function LatestOf(rows: seq<Row>, p: int): (o: Option<Time>)
    ensures o.None? <==> forall j :: 0 <= j < |rows| ==> rows[j].personId != p
    ensures o.Some? ==> exists j :: 0 <= j < |rows| && rows[j].personId == p && rows[j].lastChecked == o.value
    ensures o.Some? ==> forall j :: 0 <= j < |rows| && rows[j].personId == p ==> rows[j].lastChecked <= o.value
  {
    if rows == [] then None
    else
      var prev := LatestOf(rows[..|rows| - 1], p);
      var last := rows[|rows| - 1];
      if last.personId == p && (prev.None? || last.lastChecked > prev.value)
      then Some(last.lastChecked)
      else prev
  }

  /** What `check_person_exists` answers for the table `rows`. A match needs the globally
      nearest row to be strictly closer than the threshold; the reported `last_seen` is the
      latest timestamp over all of the matched person's rows. */
  function Lookup(rows: seq<Row>, query: Vector, threshold: real, dist: (Vector, Vector) -> real): (v: Verdict)
    ensures v.Found? <==> exists j :: 0 <= j < |rows| && dist(rows[j].vector, query) < threshold
    ensures v.Found? ==> exists i :: 0 <= i < |rows| && rows[i].personId == v.personId &&
                                     (forall j :: 0 <= j < |rows| ==> dist(rows[i].vector, query) <= dist(rows[j].vector, query))
    ensures v.Found? ==> exists j :: 0 <= j < |rows| && rows[j].personId == v.personId && rows[j].lastChecked == v.lastSeen
    ensures v.Found? ==> forall j :: 0 <= j < |rows| && rows[j].personId == v.personId ==> rows[j].lastChecked <= v.lastSeen
  {
    match NearestIn(rows, query, dist)
    case None => NotFound
    case Some(i) =>
      if dist(rows[i].vector, query) < threshold
      then Found(LatestOf(rows, rows[i].personId).value, rows[i].personId)
      else NotFound
  }

  /** Inserting `ts` one after another for person `p` (vector ids from `firstId` on). */
  function Replay(rows: seq<Row>, p: int, vector: Vector, ts: seq<Time>, maxVectors: int, firstId: int): seq<Row>
    decreases |ts|
  {
    if ts == [] then rows
    else Retain(Replay(rows, p, vector, ts[..|ts| - 1], maxVectors, firstId), p, vector,
                ts[|ts| - 1], maxVectors, firstId + |ts| - 1)
  }

  predicate StrictlyIncreasing(ts: seq<Time>)
  {
    forall i, j :: 0 <= i < j < |ts| ==> ts[i] < ts[j]
  }

  // ---------------------------------------------------------------------------------
  // Lemmas about the row selections

  lemma {:induction false} RowsOfAppend(a: seq<Row>, b: seq<Row>, p: int)
    ensures RowsOf(a + b, p) == RowsOf(a, p) + RowsOf(b, p)
    decreases |b|
  {
    if b == [] {
      assert a + b == a;
    } else {
      var b' := b[..|b| - 1];
      assert (a + b)[..|a + b| - 1] == a + b';
      assert (a + b)[|a + b| - 1] == b[|b| - 1];
      RowsOfAppend(a, b', p);
    }
  }

  /** Person `q`'s rows split around row `i`, with and without that row. */
  lemma RowsOfAround(rows: seq<Row>, i: nat, q: int)
    requires i < |rows|
    ensures RowsOf(rows, q) == RowsOf(rows[..i], q) + RowsOf([rows[i]], q) + RowsOf(rows[i + 1..], q)
    ensures RowsOf(RemoveAt(rows, i), q) == RowsOf(rows[..i], q) + RowsOf(rows[i + 1..], q)
  {
    assert rows == rows[..i] + [rows[i]] + rows[i + 1..];
    RowsOfAppend(rows[..i] + [rows[i]], rows[i + 1..], q);
    RowsOfAppend(rows[..i], [rows[i]], q);
    RowsOfAppend(rows[..i], rows[i + 1..], q);
  }

  lemma RowsOfSingle(r: Row, q: int)
    ensures RowsOf([r], q) == if r.personId == q then [r] else []
  {
    assert [r][..0] == [];
  }

  /** Every row that `RowsOf` selects comes from the table. */
  lemma {:induction false} RowsOfFromTable(rows: seq<Row>, p: int)
    ensures forall x :: x in RowsOf(rows, p) ==> x in rows
    decreases |rows|
  {
    if rows != [] {
      RowsOfFromTable(rows[..|rows| - 1], p);
      forall x | x in RowsOf(rows[..|rows| - 1], p) ensures x in rows {
        var k :| 0 <= k < |rows| - 1 && rows[..|rows| - 1][k] == x;
        assert rows[k] == x;
      }
    }
  }

  lemma IncreasingPair(ts: seq<Time>, i: int, j: int)
    ensures StrictlyIncreasing(ts) && 0 <= i < j < |ts| ==> ts[i] < ts[j]
  {
  }

  lemma TimesAbove(a: seq<Row>, c: Time)
    requires forall x :: x in a ==> x.lastChecked > c
    ensures forall k :: 0 <= k < |Times(a)| ==> Times(a)[k] > c
  {
    forall k | 0 <= k < |Times(a)| ensures Times(a)[k] > c {
      assert a[k] in a;
    }
  }

  lemma TimesAppend(a: seq<Row>, b: seq<Row>)
    ensures Times(a + b) == Times(a) + Times(b)
  {
  }

  // ---------------------------------------------------------------------------------
  // The retention step

  /** Below the cap nothing is deleted and exactly one row of `p` is added. */
  lemma RetainBelowCap(rows: seq<Row>, p: int, vector: Vector, now: Time, maxVectors: int, newId: int)
    requires CountOf(rows, p) < maxVectors
    ensures Retain(rows, p, vector, now, maxVectors, newId) == rows + [Row(newId, p, vector, now)]
    ensures CountOf(Retain(rows, p, vector, now, maxVectors, newId), p) == CountOf(rows, p) + 1
  {
    RowsOfAppend(rows, [Row(newId, p, vector, now)], p);
    RowsOfSingle(Row(newId, p, vector, now), p);
  }

  /** At or above the cap exactly one row is deleted, a row of `p` with the smallest
      `last_checked`, and one is added: the person's count is unchanged. */
  lemma RetainAtCap(rows: seq<Row>, p: int, vector: Vector, now: Time, maxVectors: int, newId: int)
    requires CountOf(rows, p) >= maxVectors && CountOf(rows, p) >= 1
    ensures exists i :: (0 <= i < |rows| && rows[i].personId == p &&
                         (forall j :: 0 <= j < |rows| && rows[j].personId == p ==> rows[i].lastChecked <= rows[j].lastChecked) &&
                         Retain(rows, p, vector, now, maxVectors, newId) == RemoveAt(rows, i) + [Row(newId, p, vector, now)])
    ensures CountOf(Retain(rows, p, vector, now, maxVectors, newId), p) == CountOf(rows, p)
  {
    OwnerHasOldest(rows, p);
    var i := OldestIn(rows, p).value;
    var row := Row(newId, p, vector, now);
    assert Retain(rows, p, vector, now, maxVectors, newId) == RemoveAt(rows, i) + [row];
    RemoveOwnRow(rows, i, p);
    RowsOfAppend(RemoveAt(rows, i), [row], p);
    RowsOfSingle(row, p);
  }

  /** A person with a row has an oldest row. */
  lemma OwnerHasOldest(rows: seq<Row>, p: int)
    requires CountOf(rows, p) >= 1
    ensures OldestIn(rows, p).Some?
  {
    RowsOfFromTable(rows, p);
    assert RowsOf(rows, p)[0] in rows;
  }

  /** Deleting one of `p`'s rows lowers `p`'s count by one. */
  lemma RemoveOwnRow(rows: seq<Row>, i: nat, p: int)
    requires i < |rows| && rows[i].personId == p
    ensures CountOf(RemoveAt(rows, i), p) == CountOf(rows, p) - 1
  {
    RowsOfAround(rows, i, p);
    RowsOfSingle(rows[i], p);
  }

  /** Cap preservation: at most `maxVectors` rows of `p` before means at most `maxVectors` after. */
  lemma RetainKeepsCap(rows: seq<Row>, p: int, vector: Vector, now: Time, maxVectors: int, newId: int)
    requires maxVectors >= 1 && CountOf(rows, p) <= maxVectors
    ensures CountOf(Retain(rows, p, vector, now, maxVectors, newId), p) <= maxVectors
  {
    if CountOf(rows, p) < maxVectors {
      RetainBelowCap(rows, p, vector, now, maxVectors, newId);
    } else {
      RetainAtCap(rows, p, vector, now, maxVectors, newId);
    }
  }

  /** Rows of every other person are exactly as they were. */
  lemma RetainOthersUntouched(rows: seq<Row>, p: int, vector: Vector, now: Time, maxVectors: int, newId: int, q: int)
    requires q != p
    ensures RowsOf(Retain(rows, p, vector, now, maxVectors, newId), q) == RowsOf(rows, q)
  {
    var evicted := AfterEviction(rows, p, maxVectors);
    RowsOfAppend(evicted, [Row(newId, p, vector, now)], q);
    RowsOfSingle(Row(newId, p, vector, now), q);
    if evicted != rows {
      var i := OldestIn(rows, p).value;
      RowsOfAround(rows, i, q);
      RowsOfSingle(rows[i], q);
    }
  }

  /** When `p`'s timestamps increase in table order, no row of `p` precedes a row of `p`
      that is strictly older than every earlier one of its rows. */
  lemma NoEarlierOwnRow(rows: seq<Row>, p: int, i: nat)
    requires i < |rows| && rows[i].personId == p && StrictlyIncreasing(TimesOf(rows, p))
    requires forall j :: 0 <= j < i && rows[j].personId == p ==> rows[i].lastChecked < rows[j].lastChecked
    ensures RowsOf(rows[..i], p) == []
  {
    var a, b, c := RowsOf(rows[..i], p), RowsOf(rows[i + 1..], p), rows[i].lastChecked;
    RowsOfAround(rows, i, p);
    RowsOfSingle(rows[i], p);
    RowsOfFromTable(rows[..i], p);
    forall x | x in a ensures x.lastChecked > c {
      var k :| 0 <= k < i && rows[..i][k] == x;
      assert rows[k] == x;
    }
    TimesAbove(a, c);
    TimesAppend(a + [rows[i]], b);
    TimesAppend(a, [rows[i]]);
    var t := TimesOf(rows, p);
    assert t == Times(a) + [c] + Times(b);
    assert t[|a|] == c;
    IncreasingPair(t, 0, |a|);
  }

  /** When `p`'s timestamps increase in table order, the oldest row is `p`'s first row,
      and deleting it drops the first timestamp. */
  lemma OldestOfIncreasing(rows: seq<Row>, p: int)
    requires CountOf(rows, p) >= 1 && StrictlyIncreasing(TimesOf(rows, p))
    ensures OldestIn(rows, p).Some?
    ensures TimesOf(RemoveAt(rows, OldestIn(rows, p).value), p) == TimesOf(rows, p)[1..]
  {
    OwnerHasOldest(rows, p);
    var i := OldestIn(rows, p).value;
    NoEarlierOwnRow(rows, p, i);
    RowsOfAround(rows, i, p);
    RowsOfSingle(rows[i], p);
    var b := RowsOf(rows[i + 1..], p);
    assert RowsOf(rows, p) == [rows[i]] + b;
    assert RowsOf(RemoveAt(rows, i), p) == b;
    TimesAppend([rows[i]], b);
  }

  lemma TimesOfAppendNew(rows: seq<Row>, p: int, vector: Vector, now: Time, newId: int)
    ensures TimesOf(rows + [Row(newId, p, vector, now)], p) == TimesOf(rows, p) + [now]
  {
    var row := Row(newId, p, vector, now);
    RowsOfAppend(rows, [row], p);
    RowsOfSingle(row, p);
    assert RowsOf(rows + [row], p) == RowsOf(rows, p) + [row];
    TimesAppend(RowsOf(rows, p), [row]);
    assert Times([row]) == [now];
  }

  /** Below the cap the new timestamp is appended to `p`'s timestamps. */
  lemma RetainTimesBelowCap(rows: seq<Row>, p: int, vector: Vector, now: Time, maxVectors: int, newId: int)
    requires CountOf(rows, p) < maxVectors
    ensures TimesOf(Retain(rows, p, vector, now, maxVectors, newId), p) == TimesOf(rows, p) + [now]
  {
    RetainBelowCap(rows, p, vector, now, maxVectors, newId);
    TimesOfAppendNew(rows, p, vector, now, newId);
  }

  /** At the cap, with `p`'s timestamps increasing, the first (oldest) one is dropped. */
  lemma RetainTimesAtCap(rows: seq<Row>, p: int, vector: Vector, now: Time, maxVectors: int, newId: int)
    requires 1 <= maxVectors <= CountOf(rows, p) && StrictlyIncreasing(TimesOf(rows, p))
    ensures TimesOf(Retain(rows, p, vector, now, maxVectors, newId), p) == TimesOf(rows, p)[1..] + [now]
  {
    OldestOfIncreasing(rows, p);
    var i := OldestIn(rows, p).value;
    assert AfterEviction(rows, p, maxVectors) == RemoveAt(rows, i);
    TimesOfAppendNew(RemoveAt(rows, i), p, vector, now, newId);
  }

  /** The last `keep` elements of `ts`, or all of them when there are fewer. */
  function Newest(ts: seq<Time>, keep: nat): (r: seq<Time>)
  {
    ts[|ts| - (if |ts| < keep then |ts| else keep)..]
  }

  /** One insertion with a timestamp above all earlier ones keeps the newest `maxVectors`. */
  lemma RetainKeepsNewest(rows: seq<Row>, p: int, vector: Vector, ts: seq<Time>, maxVectors: int, newId: int)
    requires maxVectors >= 1 && |ts| >= 1 && StrictlyIncreasing(ts)
    requires TimesOf(rows, p) == Newest(ts[..|ts| - 1], maxVectors)
    ensures TimesOf(Retain(rows, p, vector, ts[|ts| - 1], maxVectors, newId), p) == Newest(ts, maxVectors)
  {
    var n, t := |ts|, ts[|ts| - 1];
    assert |TimesOf(rows, p)| == CountOf(rows, p);
    if n - 1 < maxVectors {
      RetainTimesBelowCap(rows, p, vector, t, maxVectors, newId);
      assert ts[..n - 1] + [t] == ts;
    } else {
      var s := TimesOf(rows, p);
      assert s == ts[n - 1 - maxVectors..n - 1];
      assert StrictlyIncreasing(s);
      RetainTimesAtCap(rows, p, vector, t, maxVectors, newId);
      assert s[1..] + [t] == ts[n - maxVectors..];
    }
  }

  /** With strictly increasing insertion times, the retained rows of `p` are always the
      `maxVectors` most recent insertions (all of them while there are fewer). */
  lemma {:induction false} ReplayKeepsMostRecent(rows: seq<Row>, p: int, vector: Vector, ts: seq<Time>,
                                                 maxVectors: int, firstId: int)
    requires maxVectors >= 1 && CountOf(rows, p) == 0 && StrictlyIncreasing(ts)
    ensures TimesOf(Replay(rows, p, vector, ts, maxVectors, firstId), p) == Newest(ts, maxVectors)
    decreases |ts|
  {
    if ts == [] {
      assert TimesOf(rows, p) == [];
    } else {
      var front := ts[..|ts| - 1];
      assert StrictlyIncreasing(front);
      ReplayKeepsMostRecent(rows, p, vector, front, maxVectors, firstId);
      RetainKeepsNewest(Replay(rows, p, vector, front, maxVectors, firstId), p, vector, ts, maxVectors, firstId + |ts| - 1);
    }
  }

  /** Eleven inserts with increasing times under the default cap of ten keep the last ten;
      the first insertion is gone. */
  lemma ElevenInsertsKeepTen(rows: seq<Row>, p: int, vector: Vector, ts: seq<Time>, firstId: int)
    requires CountOf(rows, p) == 0 && |ts| == 11 && StrictlyIncreasing(ts)
    ensures CountOf(Replay(rows, p, vector, ts, DefaultMaxVectors, firstId), p) == 10
    ensures TimesOf(Replay(rows, p, vector, ts, DefaultMaxVectors, firstId), p) == ts[1..]
    ensures ts[0] !in TimesOf(Replay(rows, p, vector, ts, DefaultMaxVectors, firstId), p)
  {
    ReplayKeepsMostRecent(rows, p, vector, ts, DefaultMaxVectors, firstId);
    assert |TimesOf(Replay(rows, p, vector, ts, DefaultMaxVectors, firstId), p)| == 10;
  }

  lemma IncreasingPrefix(ts: seq<Time>, k: nat)
    requires StrictlyIncreasing(ts) && k <= |ts|
    ensures StrictlyIncreasing(ts[..k])
  {
  }

  /** The general form: a person whose rows hold the newest `maxVectors` of the earlier
      times `pre` keeps, after further insertions `ts`, the newest `maxVectors` of `pre + ts`. */
  lemma {:induction false} ReplayKeepsNewestAfter(rows: seq<Row>, p: int, vector: Vector, pre: seq<Time>,
                                                  ts: seq<Time>, maxVectors: int, firstId: int)
    requires maxVectors >= 1 && StrictlyIncreasing(pre + ts) && TimesOf(rows, p) == Newest(pre, maxVectors)
    ensures TimesOf(Replay(rows, p, vector, ts, maxVectors, firstId), p) == Newest(pre + ts, maxVectors)
    decreases |ts|
  {
    if ts == [] {
      assert pre + ts == pre;
    } else {
      var front, all := ts[..|ts| - 1], pre + ts;
      assert all[..|all| - 1] == pre + front;
      assert all[|all| - 1] == ts[|ts| - 1];
      IncreasingPrefix(all, |all| - 1);
      ReplayKeepsNewestAfter(rows, p, vector, pre, front, maxVectors, firstId);
      RetainKeepsNewest(Replay(rows, p, vector, front, maxVectors, firstId), p, vector, all, maxVectors, firstId + |ts| - 1);
    }
  }

  /** One call of `insert_vector_for_person`: whose vector, which vector, and when. */
  datatype Visit = Visit(personId: int, vector: Vector, time: Time)

  /** The table after committed insertions for any persons, in order (vector ids from `firstId` on). */
  function ReplayVisits(rows: seq<Row>, visits: seq<Visit>, maxVectors: int, firstId: int): seq<Row>
    decreases |visits|
  {
    if visits == [] then rows
    else
      var last := visits[|visits| - 1];
      Retain(ReplayVisits(rows, visits[..|visits| - 1], maxVectors, firstId), last.personId, last.vector,
             last.time, maxVectors, firstId + |visits| - 1)
  }

  /** The times of person `p`'s visits, in order. */
  function TimesFor(visits: seq<Visit>, p: int): seq<Time>
  {
    if visits == [] then []
    else TimesFor(visits[..|visits| - 1], p) +
         (if visits[|visits| - 1].personId == p then [visits[|visits| - 1].time] else [])
  }

  /** A visit of `p` itself, with a time above all earlier ones, extends the newest-`maxVectors` window. */
  lemma OwnVisitStep(before: seq<Row>, p: int, v: Visit, earlier: seq<Time>, all: seq<Time>, maxVectors: int, newId: int)
    requires maxVectors >= 1 && v.personId == p && all == earlier + [v.time] && StrictlyIncreasing(all)
    requires TimesOf(before, p) == Newest(earlier, maxVectors)
    ensures TimesOf(Retain(before, p, v.vector, v.time, maxVectors, newId), p) == Newest(all, maxVectors)
  {
    assert all[..|all| - 1] == earlier;
    RetainKeepsNewest(before, p, v.vector, all, maxVectors, newId);
  }

  /** A visit of another person leaves `p`'s timestamps as they were. */
  lemma OtherVisitStep(before: seq<Row>, p: int, v: Visit, maxVectors: int, newId: int)
    requires v.personId != p
    ensures TimesOf(Retain(before, v.personId, v.vector, v.time, maxVectors, newId), p) == TimesOf(before, p)
  {
    RetainOthersUntouched(before, v.personId, v.vector, v.time, maxVectors, newId, p);
  }

  /** The times of all but the last visit still increase. */
  lemma FrontIncreasing(p: int, visits: seq<Visit>, pre: seq<Time>)
    requires visits != [] && StrictlyIncreasing(pre + TimesFor(visits, p))
    ensures StrictlyIncreasing(pre + TimesFor(visits[..|visits| - 1], p))
  {
    var earlier, all := pre + TimesFor(visits[..|visits| - 1], p), pre + TimesFor(visits, p);
    assert all[..|earlier|] == earlier;
    IncreasingPrefix(all, |earlier|);
  }

  /** The last visit of a run carries the window from the run's front to the whole run. */
  lemma LastVisitStep(rows: seq<Row>, p: int, visits: seq<Visit>, pre: seq<Time>, maxVectors: int, firstId: int)
    requires maxVectors >= 1 && visits != [] && StrictlyIncreasing(pre + TimesFor(visits, p))
    requires TimesOf(ReplayVisits(rows, visits[..|visits| - 1], maxVectors, firstId), p) ==
             Newest(pre + TimesFor(visits[..|visits| - 1], p), maxVectors)
    ensures TimesOf(ReplayVisits(rows, visits, maxVectors, firstId), p) == Newest(pre + TimesFor(visits, p), maxVectors)
  {
    if visits[|visits| - 1].personId == p {
      LastVisitOwn(rows, p, visits, pre, maxVectors, firstId);
    } else {
      LastVisitOther(rows, p, visits, pre, maxVectors, firstId);
    }
  }

  lemma ReplayVisitsLast(rows: seq<Row>, visits: seq<Visit>, maxVectors: int, firstId: int)
    requires visits != []
    ensures ReplayVisits(rows, visits, maxVectors, firstId) ==
            Retain(ReplayVisits(rows, visits[..|visits| - 1], maxVectors, firstId), visits[|visits| - 1].personId,
                   visits[|visits| - 1].vector, visits[|visits| - 1].time, maxVectors, firstId + |visits| - 1)
  {
  }

  lemma TimesForLast(visits: seq<Visit>, p: int)
    requires visits != []
    ensures visits[|visits| - 1].personId == p ==>
              TimesFor(visits, p) == TimesFor(visits[..|visits| - 1], p) + [visits[|visits| - 1].time]
    ensures visits[|visits| - 1].personId != p ==> TimesFor(visits, p) == TimesFor(visits[..|visits| - 1], p)
  {
  }

  lemma AppendLast(a: seq<Time>, b: seq<Time>, t: Time)
    ensures a + (b + [t]) == (a + b) + [t]
  {
  }

  lemma LastVisitOwn(rows: seq<Row>, p: int, visits: seq<Visit>, pre: seq<Time>, maxVectors: int, firstId: int)
    requires maxVectors >= 1 && visits != [] && visits[|visits| - 1].personId == p
    requires StrictlyIncreasing(pre + TimesFor(visits, p))
    requires TimesOf(ReplayVisits(rows, visits[..|visits| - 1], maxVectors, firstId), p) ==
             Newest(pre + TimesFor(visits[..|visits| - 1], p), maxVectors)
    ensures TimesOf(ReplayVisits(rows, visits, maxVectors, firstId), p) == Newest(pre + TimesFor(visits, p), maxVectors)
  {
    var front, last := visits[..|visits| - 1], visits[|visits| - 1];
    var earlier := pre + TimesFor(front, p);
    ReplayVisitsLast(rows, visits, maxVectors, firstId);
    TimesForLast(visits, p);
    AppendLast(pre, TimesFor(front, p), last.time);
    OwnVisitStep(ReplayVisits(rows, front, maxVectors, firstId), p, last, earlier, pre + TimesFor(visits, p),
                 maxVectors, firstId + |visits| - 1);
  }

  lemma LastVisitOther(rows: seq<Row>, p: int, visits: seq<Visit>, pre: seq<Time>, maxVectors: int, firstId: int)
    requires maxVectors >= 1 && visits != [] && visits[|visits| - 1].personId != p
    requires TimesOf(ReplayVisits(rows, visits[..|visits| - 1], maxVectors, firstId), p) ==
             Newest(pre + TimesFor(visits[..|visits| - 1], p), maxVectors)
    ensures TimesOf(ReplayVisits(rows, visits, maxVectors, firstId), p) == Newest(pre + TimesFor(visits, p), maxVectors)
  {
    ReplayVisitsLast(rows, visits, maxVectors, firstId);
    TimesForLast(visits, p);
    OtherVisitStep(ReplayVisits(rows, visits[..|visits| - 1], maxVectors, firstId), p, visits[|visits| - 1],
                   maxVectors, firstId + |visits| - 1);
  }

  /** Interleaved insertions: whatever other persons' insertions come between, person `p`
      keeps the newest `maxVectors` of its earlier times `pre` and of its own visits' times. */
  lemma {:induction false} ReplayVisitsKeepsNewest(rows: seq<Row>, p: int, visits: seq<Visit>, pre: seq<Time>,
                                                   maxVectors: int, firstId: int)
    requires maxVectors >= 1 && StrictlyIncreasing(pre + TimesFor(visits, p))
    requires TimesOf(rows, p) == Newest(pre, maxVectors)
    ensures TimesOf(ReplayVisits(rows, visits, maxVectors, firstId), p) == Newest(pre + TimesFor(visits, p), maxVectors)
    decreases |visits|
  {
    if visits == [] {
      assert pre + TimesFor(visits, p) == pre;
    } else {
      FrontIncreasing(p, visits, pre);
      ReplayVisitsKeepsNewest(rows, p, visits[..|visits| - 1], pre, maxVectors, firstId);
      LastVisitStep(rows, p, visits, pre, maxVectors, firstId);
    }
  }

  /** For a person already in the store, within the cap and with increasing timestamps, any
      interleaved run of later insertions keeps the newest `maxVectors` of all its times. */
  lemma ExistingPersonKeepsNewest(rows: seq<Row>, p: int, visits: seq<Visit>, maxVectors: int, firstId: int)
    requires 1 <= maxVectors && CountOf(rows, p) <= maxVectors
    requires StrictlyIncreasing(TimesOf(rows, p) + TimesFor(visits, p))
    ensures TimesOf(ReplayVisits(rows, visits, maxVectors, firstId), p) ==
            Newest(TimesOf(rows, p) + TimesFor(visits, p), maxVectors)
  {
    var pre := TimesOf(rows, p);
    assert |pre| == CountOf(rows, p);
    assert Newest(pre, maxVectors) == pre;
    ReplayVisitsKeepsNewest(rows, p, visits, pre, maxVectors, firstId);
  }

  // ---------------------------------------------------------------------------------
  // Table invariants

  /** Sequence values lie above every issued id, every vector row references a person
      (the foreign key), rows are kept in vector_id order, and every person owns a row. */
  ghost predicate TablesValid(persons: set<int>, vectors: seq<Row>, nextPersonId: int, nextVectorId: int)
  {
    1 <= nextPersonId &&
    (forall p :: p in persons ==> 1 <= p < nextPersonId) &&
    (forall i :: 0 <= i < |vectors| ==> vectors[i].vectorId < nextVectorId && vectors[i].personId in persons) &&
    (forall i, j :: 0 <= i < j < |vectors| ==> vectors[i].vectorId < vectors[j].vectorId) &&
    (forall p :: p in persons ==> CountOf(vectors, p) >= 1)
  }

  lemma RemoveAtIndex(rows: seq<Row>, k: nat)
    requires k < |rows|
    ensures |RemoveAt(rows, k)| == |rows| - 1
    ensures forall i :: 0 <= i < |rows| - 1 ==> RemoveAt(rows, k)[i] == if i < k then rows[i] else rows[i + 1]
  {
  }

  /** Eviction deletes at most one row. */
  lemma EvictionKeepsRows(vectors: seq<Row>, p: int, maxVectors: int)
    ensures forall x :: x in AfterEviction(vectors, p, maxVectors) ==> x in vectors
  {
    var staged := AfterEviction(vectors, p, maxVectors);
    if staged != vectors {
      var k := OldestIn(vectors, p).value;
      assert staged == vectors[..k] + vectors[k + 1..];
    }
  }

  /** Eviction keeps the remaining rows in order. */
  lemma EvictionKeepsOrder(vectors: seq<Row>, p: int, maxVectors: int)
    requires forall i, j :: 0 <= i < j < |vectors| ==> vectors[i].vectorId < vectors[j].vectorId
    ensures var staged := AfterEviction(vectors, p, maxVectors);
            forall i, j :: 0 <= i < j < |staged| ==> staged[i].vectorId < staged[j].vectorId
  {
    var staged := AfterEviction(vectors, p, maxVectors);
    if staged != vectors {
      var k := OldestIn(vectors, p).value;
      RemoveAtIndex(vectors, k);
      forall i, j | 0 <= i < j < |staged| ensures staged[i].vectorId < staged[j].vectorId {
        var i', j' := if i < k then i else i + 1, if j < k then j else j + 1;
        assert staged[i] == vectors[i'] && staged[j] == vectors[j'];
      }
    }
  }

  /** After a retention step every row still has an issued id and an existing person. */
  lemma RetainRowsReferenced(persons: set<int>, vectors: seq<Row>, nextVectorId: int,
                             p: int, vector: Vector, now: Time, maxVectors: int)
    requires forall i :: 0 <= i < |vectors| ==> vectors[i].vectorId < nextVectorId && vectors[i].personId in persons
    requires p in persons
    ensures var after := Retain(vectors, p, vector, now, maxVectors, nextVectorId);
            forall i :: 0 <= i < |after| ==> after[i].vectorId < nextVectorId + 1 && after[i].personId in persons
  {
    var staged := AfterEviction(vectors, p, maxVectors);
    var after := staged + [Row(nextVectorId, p, vector, now)];
    EvictionKeepsRows(vectors, p, maxVectors);
    forall i | 0 <= i < |after| ensures after[i].vectorId < nextVectorId + 1 && after[i].personId in persons {
      if i < |staged| {
        assert staged[i] in vectors;
      }
    }
  }

  /** After a retention step the rows are still in vector_id order. */
  lemma RetainRowsOrdered(vectors: seq<Row>, nextVectorId: int, p: int, vector: Vector, now: Time, maxVectors: int)
    requires forall i :: 0 <= i < |vectors| ==> vectors[i].vectorId < nextVectorId
    requires forall i, j :: 0 <= i < j < |vectors| ==> vectors[i].vectorId < vectors[j].vectorId
    ensures var after := Retain(vectors, p, vector, now, maxVectors, nextVectorId);
            forall i, j :: 0 <= i < j < |after| ==> after[i].vectorId < after[j].vectorId
  {
    var staged := AfterEviction(vectors, p, maxVectors);
    EvictionKeepsOrder(vectors, p, maxVectors);
    EvictionKeepsRows(vectors, p, maxVectors);
    forall i | 0 <= i < |staged| ensures staged[i].vectorId < nextVectorId {
      assert staged[i] in vectors;
    }
  }

  /** After a retention step of `p`, every person still owns a row. */
  lemma RetainEveryoneKeepsARow(persons: set<int>, vectors: seq<Row>, p: int, vector: Vector, now: Time,
                                maxVectors: int, nextVectorId: int)
    requires forall q :: q in persons ==> CountOf(vectors, q) >= 1
    ensures forall q :: q in persons ==> CountOf(Retain(vectors, p, vector, now, maxVectors, nextVectorId), q) >= 1
  {
    var staged := AfterEviction(vectors, p, maxVectors);
    var row := Row(nextVectorId, p, vector, now);
    forall q | q in persons
      ensures CountOf(staged + [row], q) >= 1
    {
      RowsOfAppend(staged, [row], q);
      RowsOfSingle(row, q);
      if q != p {
        RetainOthersUntouched(vectors, p, vector, now, maxVectors, nextVectorId, q);
      }
    }
  }

  /** A committed retention step keeps the tables valid. */
  lemma RetainKeepsTablesValid(persons: set<int>, vectors: seq<Row>, nextPersonId: int, nextVectorId: int,
                               p: int, vector: Vector, now: Time, maxVectors: int)
    requires TablesValid(persons, vectors, nextPersonId, nextVectorId) && p in persons
    ensures TablesValid(persons, Retain(vectors, p, vector, now, maxVectors, nextVectorId), nextPersonId, nextVectorId + 1)
  {
    RetainRowsReferenced(persons, vectors, nextVectorId, p, vector, now, maxVectors);
    RetainRowsOrdered(vectors, nextVectorId, p, vector, now, maxVectors);
    RetainEveryoneKeepsARow(persons, vectors, p, vector, now, maxVectors, nextVectorId);
  }

  /** Adding a person together with its first row keeps the tables valid. */
  lemma NewPersonKeepsTablesValid(persons: set<int>, vectors: seq<Row>, nextPersonId: int, nextVectorId: int,
                                  vector: Vector, now: Time)
    requires TablesValid(persons, vectors, nextPersonId, nextVectorId)
    ensures nextPersonId !in persons
    ensures TablesValid(persons + {nextPersonId}, vectors + [Row(nextVectorId, nextPersonId, vector, now)],
                        nextPersonId + 1, nextVectorId + 1)
  {
    var row := Row(nextVectorId, nextPersonId, vector, now);
    forall q | q in persons + {nextPersonId}
      ensures CountOf(vectors + [row], q) >= 1
    {
      RowsOfAppend(vectors, [row], q);
      RowsOfSingle(row, q);
    }
  }

  // ---------------------------------------------------------------------------------
  // The store

  class Store {
    /** The `persons` table (its SERIAL `person_id` column). */
    var persons: set<int>
    /** The `vectors` table, in insertion order. */
    var vectors: seq<Row>
    /** The next values of the two SERIAL sequences. */
    var nextPersonId: int
    var nextVectorId: int

    ghost predicate Valid()
      reads this
    {
      TablesValid(persons, vectors, nextPersonId, nextVectorId)
    }

    constructor ()
      ensures Valid()
      ensures persons == {} && vectors == [] && nextPersonId == 1 && nextVectorId == 1
    {
      persons := {};
      vectors := [];
      nextPersonId := 1;
      nextVectorId := 1;
    }

    /** `insert_new_person`: one person row and its first vector row in one transaction.
        An abort before the commit leaves both tables as they were. */
    method InsertNewPerson(vector: Vector, now: Time, abort: bool) returns (r: Result<int>)
      requires Valid()
      modifies this
      ensures Valid()
      ensures abort ==> r == Failure && persons == old(persons) && vectors == old(vectors)
      ensures abort ==> nextPersonId == old(nextPersonId) && nextVectorId == old(nextVectorId)
      ensures !abort ==> r == Success(old(nextPersonId)) && old(nextPersonId) !in old(persons)
      ensures !abort ==> persons == old(persons) + {old(nextPersonId)}
      ensures !abort ==> vectors == old(vectors) + [Row(old(nextVectorId), old(nextPersonId), vector, now)]
      ensures !abort ==> nextPersonId == old(nextPersonId) + 1 && nextVectorId == old(nextVectorId) + 1
    {
      var personId := nextPersonId;
      var row := Row(nextVectorId, personId, vector, now);
      if abort {
        return Failure;
      }
      NewPersonKeepsTablesValid(persons, vectors, nextPersonId, nextVectorId, vector, now);
      persons := persons + {personId};
      vectors := vectors + [row];
      nextPersonId := nextPersonId + 1;
      nextVectorId := nextVectorId + 1;
      r := Success(personId);
    }

    /** `insert_vector_for_person`: count the person's rows, delete the oldest one when the
        count is at or above the cap, insert the new row, commit. An abort, or a person id
        the foreign key rejects, rolls the whole transaction back. */
    method InsertVectorForPerson(personId: int, vector: Vector, now: Time, maxVectors: int, abort: bool)
      returns (r: Result<()>)
      requires Valid()
      modifies this
      ensures Valid()
      ensures r.Success? <==> !abort && personId in old(persons)
      ensures r.Success? ==> vectors == Retain(old(vectors), personId, vector, now, maxVectors, old(nextVectorId))
      ensures r.Success? ==> nextVectorId == old(nextVectorId) + 1
      ensures r.Failure? ==> vectors == old(vectors) && nextVectorId == old(nextVectorId)
      ensures persons == old(persons) && nextPersonId == old(nextPersonId)
    {
      // 1. and 2. count the person's rows, delete the oldest at the cap
      var staged := StagedEviction(personId, maxVectors);
      // 3. insert, then commit
      if abort || personId !in persons {
        return Failure;
      }
      RetainKeepsTablesValid(persons, vectors, nextPersonId, nextVectorId, personId, vector, now, maxVectors);
      vectors := staged + [Row(nextVectorId, personId, vector, now)];
      nextVectorId := nextVectorId + 1;
      r := Success(());
    }

    /** Steps 1 and 2 of `insert_vector_for_person`, inside the open transaction: the table as
        it stands after the conditional delete. */
    method StagedEviction(personId: int, maxVectors: int) returns (staged: seq<Row>)
      ensures staged == AfterEviction(vectors, personId, maxVectors)
    {
      var count := CountRows(personId);
      staged := vectors;
      if count >= maxVectors {
        var oldest := FindOldest(personId);
        if oldest.Some? {
          staged := RemoveAt(vectors, oldest.value);
        }
      }
    }

    /** `SELECT COUNT(*) FROM vectors WHERE person_id = %s`. */
    method CountRows(personId: int) returns (count: nat)
      ensures count == CountOf(vectors, personId)
    {
      count := 0;
      var i := 0;
      while i < |vectors|
        invariant 0 <= i <= |vectors|
        invariant count == CountOf(vectors[..i], personId)
      {
        assert vectors[..i + 1][..i] == vectors[..i];
        if vectors[i].personId == personId {
          count := count + 1;
        }
        i := i + 1;
      }
      assert vectors[..|vectors|] == vectors;
    }

    /** The subquery `SELECT vector_id ... WHERE person_id = %s ORDER BY last_checked ASC LIMIT 1`,
        as a position in the table (None when the person has no rows). */
    method FindOldest(personId: int) returns (oldest: Option<nat>)
      ensures oldest == OldestIn(vectors, personId)
    {
      oldest := None;
      var j := 0;
      while j < |vectors|
        invariant 0 <= j <= |vectors|
        invariant oldest == OldestIn(vectors[..j], personId)
      {
        assert vectors[..j + 1][..j] == vectors[..j];
        var row := vectors[j];
        if row.personId == personId && (oldest.None? || row.lastChecked < vectors[oldest.value].lastChecked) {
          oldest := Some(j);
        }
        j := j + 1;
      }
      assert vectors[..|vectors|] == vectors;
    }

    /** `check_person_exists`: the globally nearest row decides the match (distance strictly
        below the threshold); then the matched person's latest timestamp is read. */
    method CheckPersonExists(input: Vector, threshold: real, dist: (Vector, Vector) -> real, available: bool)
      returns (r: Result<Verdict>)
      ensures r == if available then Success(Lookup(vectors, input, threshold, dist)) else Failure
    {
      if !available {
        return Failure;
      }
      var nearest := NearestRow(input, dist);
      if nearest.Some? && dist(vectors[nearest.value].vector, input) < threshold {
        var personId := vectors[nearest.value].personId;
        var latest := LatestCheck(personId);
        r := Success(Found(latest.value, personId));
      } else {
        r := Success(NotFound);
      }
    }

    /** The first query of `check_person_exists`: the row closest to `input` over the whole table. */
    method NearestRow(input: Vector, dist: (Vector, Vector) -> real) returns (nearest: Option<nat>)
      ensures nearest == NearestIn(vectors, input, dist)
    {
      nearest := None;
      var i := 0;
      while i < |vectors|
        invariant 0 <= i <= |vectors|
        invariant nearest == NearestIn(vectors[..i], input, dist)
      {
        assert vectors[..i + 1][..i] == vectors[..i];
        if nearest.None? || dist(vectors[i].vector, input) < dist(vectors[nearest.value].vector, input) {
          nearest := Some(i);
        }
        i := i + 1;
      }
      assert vectors[..|vectors|] == vectors;
    }

    /** The second query of `check_person_exists`: `SELECT MAX(last_checked) ... WHERE person_id = %s`. */
    method LatestCheck(personId: int) returns (latest: Option<Time>)
      ensures latest == LatestOf(vectors, personId)
    {
      latest := None;
      var j := 0;
      while j < |vectors|
        invariant 0 <= j <= |vectors|
        invariant latest == LatestOf(vectors[..j], personId)
      {
        assert vectors[..j + 1][..j] == vectors[..j];
        if vectors[j].personId == personId && (latest.None? || vectors[j].lastChecked > latest.value) {
          latest := Some(vectors[j].lastChecked);
        }
        j := j + 1;
      }
      assert vectors[..|vectors|] == vectors;
    }
  }
}
