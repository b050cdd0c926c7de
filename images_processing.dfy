/** The recognition front end over the relational store (`imagesProcessing.py`): classify a
    face as green, yellow or red from the store's answer, and forward the two approvals. */
module ImagesProcessing {
  import opened Common
  import opened Recency
  import FaceDb

  /** The tier decision of `is_familiar`: a match seen within the last 14 days is green and
      carries nothing; an older match is yellow and carries the vector and the person id; no
      match is red and carries the vector only. */
  function Classify(verdict: Verdict, vector: Vector, now: Time): (f: Familiarity)
    ensures f.tier != Error
    ensures f.tier == Green <==> verdict.Found? && IsWithinPeriod(verdict.lastSeen, RecencyDays, now)
    ensures f.tier == Red <==> verdict.NotFound?
    ensures f.tier == Green ==> f.vector.None? && f.personId.None?
    ensures f.tier == Yellow ==> f.vector == Some(vector) && f.personId == Some(verdict.personId)
    ensures f.tier == Red ==> f.vector == Some(vector) && f.personId.None?
  {
    match verdict
    case Found(lastSeen, personId) =>
      if IsWithinPeriod(lastSeen, RecencyDays, now) then Familiarity(Green, None, None)
      else Familiarity(Yellow, Some(vector), Some(personId))
    case NotFound => Familiarity(Red, Some(vector), None)
  }

  /** What the tiers mean for the stored rows: red iff no row is closer than the threshold;
      otherwise the person owning a nearest row is reported, green iff one of that person's
      rows was checked within the last 14 days, yellow iff all of them are older. */
  lemma TierMeaning(rows: seq<FaceDb.Row>, query: Vector, dist: (Vector, Vector) -> real, now: Time)
    ensures var f := Classify(FaceDb.Lookup(rows, query, FaceDb.DefaultThreshold, dist), query, now);
            (f.tier == Red <==> forall j :: 0 <= j < |rows| ==> dist(rows[j].vector, query) >= FaceDb.DefaultThreshold)
    ensures var v := FaceDb.Lookup(rows, query, FaceDb.DefaultThreshold, dist);
            var f := Classify(v, query, now);
            f.tier != Red ==>
              (f.tier == Green <==> exists j :: 0 <= j < |rows| && rows[j].personId == v.personId &&
                                                IsWithinPeriod(rows[j].lastChecked, RecencyDays, now))
  {
    var v := FaceDb.Lookup(rows, query, FaceDb.DefaultThreshold, dist);
    if v.Found? {
      var f := Classify(v, query, now);
      if f.tier != Green {
        forall j | 0 <= j < |rows| && rows[j].personId == v.personId
          ensures !IsWithinPeriod(rows[j].lastChecked, RecencyDays, now)
        {
          assert rows[j].lastChecked <= v.lastSeen;
        }
      }
    }
  }

  /** `is_familiar`: the embedding comes from the face model (None when it raises, for
      instance when no face is detected); the store's error propagates. */
  method IsFamiliar(store: FaceDb.Store, embedding: Option<Vector>, now: Time,
                    dist: (Vector, Vector) -> real, available: bool)
    returns (r: Result<Familiarity>)
    ensures embedding.None? || !available ==> r == Failure
    ensures embedding.Some? && available ==>
              r == Success(Classify(FaceDb.Lookup(store.vectors, embedding.value, FaceDb.DefaultThreshold, dist),
                                    embedding.value, now))
  {
    if embedding.None? {
      return Failure;
    }
    var vector := embedding.value;
    var response := store.CheckPersonExists(vector, FaceDb.DefaultThreshold, dist, available);
    if response.Failure? {
      return Failure;
    }
    r := Success(Classify(response.value, vector, now));
  }

  /** `add_new_person` (after a red result is approved): the new id is not returned. */
  method AddNewPerson(store: FaceDb.Store, vector: Vector, now: Time, abort: bool) returns (r: Result<()>)
    requires store.Valid()
    modifies store
    ensures store.Valid()
    ensures r.Success? <==> !abort
    ensures !abort ==> store.persons == old(store.persons) + {old(store.nextPersonId)} &&
                       store.vectors == old(store.vectors) + [FaceDb.Row(old(store.nextVectorId), old(store.nextPersonId), vector, now)]
    ensures !abort ==> store.nextPersonId == old(store.nextPersonId) + 1 && store.nextVectorId == old(store.nextVectorId) + 1
    ensures abort ==> store.persons == old(store.persons) && store.vectors == old(store.vectors)
    ensures abort ==> store.nextPersonId == old(store.nextPersonId) && store.nextVectorId == old(store.nextVectorId)
  {
    var inserted := store.InsertNewPerson(vector, now, abort);
    r := if inserted.Success? then Success(()) else Failure;
  }

  /** `add_new_visit` (after a yellow result is approved), with the default cap of 10. */
  method AddNewVisit(store: FaceDb.Store, vector: Vector, personId: int, now: Time, abort: bool)
    returns (r: Result<()>)
    requires store.Valid()
    modifies store
    ensures store.Valid()
    ensures r.Success? <==> !abort && personId in old(store.persons)
    ensures r.Success? ==> store.vectors == FaceDb.Retain(old(store.vectors), personId, vector, now,
                                                          FaceDb.DefaultMaxVectors, old(store.nextVectorId))
    ensures r.Success? ==> store.nextVectorId == old(store.nextVectorId) + 1
    ensures r.Failure? ==> store.vectors == old(store.vectors) && store.nextVectorId == old(store.nextVectorId)
    ensures store.persons == old(store.persons) && store.nextPersonId == old(store.nextPersonId)
  {
    r := store.InsertVectorForPerson(personId, vector, now, FaceDb.DefaultMaxVectors, abort);
  }

  /** A table of one row matches a query close enough to that row, with its timestamp. */
  lemma LookupOfSingle(r: FaceDb.Row, query: Vector, dist: (Vector, Vector) -> real)
    requires dist(r.vector, query) < FaceDb.DefaultThreshold
    ensures FaceDb.Lookup([r], query, FaceDb.DefaultThreshold, dist) == Found(r.lastChecked, r.personId)
  {
  }

  /** A second insertion for a person with one row keeps both rows. */
  lemma SecondRow(r: FaceDb.Row, vector: Vector, now: Time, newId: int)
    ensures FaceDb.Retain([r], r.personId, vector, now, FaceDb.DefaultMaxVectors, newId) ==
            [r, FaceDb.Row(newId, r.personId, vector, now)]
    ensures FaceDb.CountOf([r, FaceDb.Row(newId, r.personId, vector, now)], r.personId) == 2
  {
    var r2 := FaceDb.Row(newId, r.personId, vector, now);
    FaceDb.RowsOfSingle(r, r.personId);
    FaceDb.RowsOfSingle(r2, r.personId);
    FaceDb.RowsOfAppend([r], [r2], r.personId);
  }

  /** A first sighting on an empty store is red; once approved the same face is green the
      same day, and the store holds person 1 with that one row. */
  method FirstSighting(v: Vector, t0: Time, dist: (Vector, Vector) -> real)
    returns (store: FaceDb.Store, first: Result<Familiarity>, second: Result<Familiarity>)
    requires dist(v, v) < FaceDb.DefaultThreshold
    ensures fresh(store) && store.Valid()
    ensures store.persons == {1} && store.vectors == [FaceDb.Row(1, 1, v, t0)] && store.nextVectorId == 2
    ensures first == Success(Familiarity(Red, Some(v), None))
    ensures second == Success(Familiarity(Green, None, None))
  {
    store := new FaceDb.Store();
    first := IsFamiliar(store, Some(v), t0, dist, true);
    var added := AddNewPerson(store, v, t0, false);
    LookupOfSingle(FaceDb.Row(1, 1, v, t0), v, dist);
    second := IsFamiliar(store, Some(v), t0, dist, true);
  }

  /** Fifteen days after the first sighting the face is yellow with person id 1; approving
      that visit gives the person a second vector. */
  method VisitScenario(v: Vector, t0: Time, dist: (Vector, Vector) -> real)
    returns (first: Result<Familiarity>, second: Result<Familiarity>, third: Result<Familiarity>, rows: nat)
    requires dist(v, v) < FaceDb.DefaultThreshold
    ensures first == Success(Familiarity(Red, Some(v), None))
    ensures second == Success(Familiarity(Green, None, None))
    ensures third == Success(Familiarity(Yellow, Some(v), Some(1)))
    ensures rows == 2
  {
    var store;
    store, first, second := FirstSighting(v, t0, dist);
    var row := FaceDb.Row(1, 1, v, t0);
    var later := t0 + 15 * MicrosPerDay;
    LookupOfSingle(row, v, dist);
    third := IsFamiliar(store, Some(v), later, dist, true);
    SecondRow(row, v, later, 2);
    var visit := AddNewVisit(store, v, 1, later, false);
    rows := store.CountRows(1);
  }
}
