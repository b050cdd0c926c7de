/** The recognition front end over the managed index (`pinecone_imageProcessing.py`): every
    exception is caught and turned into the error tier; green and yellow both carry the vector
    and the person id. */
module PineconeImageProcessing {
  import opened Common
  import opened Recency
  import opened RecordIds
  import PineconeDb

  /** The tier decision of `is_familiar`, with a raised lookup becoming the error tier. */
  function Classify(response: Result<Verdict>, vector: Vector, now: Time): (f: Familiarity)
    ensures f.tier == Error <==> response.Failure?
    ensures f.tier == Error ==> f.vector.None? && f.personId.None?
    ensures f.tier == Green <==> response.Success? && response.value.Found? &&
                                 IsWithinPeriod(response.value.lastSeen, RecencyDays, now)
    ensures f.tier == Red <==> response == Success(NotFound)
    ensures f.tier == Green || f.tier == Yellow ==>
              f.vector == Some(vector) && f.personId == Some(response.value.personId)
    ensures f.tier == Red ==> f.vector == Some(vector) && f.personId.None?
  {
    match response
    case Failure => Familiarity(Error, None, None)
    case Success(Found(lastSeen, personId)) =>
      if IsWithinPeriod(lastSeen, RecencyDays, now) then Familiarity(Green, Some(vector), Some(personId))
      else Familiarity(Yellow, Some(vector), Some(personId))
    case Success(NotFound) => Familiarity(Red, Some(vector), None)
  }

  /** `is_familiar`: the embedding comes from the face model (None when it raises); a failing
      index query also ends in the error tier. Otherwise the tier is red iff no record reaches
      the similarity threshold, and else it is decided by a best-scoring record: its person is
      reported, green iff that record was checked within the last 14 days. */
  method IsFamiliar(index: PineconeDb.Index, embedding: Option<Vector>, now: Time,
                    score: (Vector, Vector) -> real, available: bool)
    returns (f: Familiarity)
    ensures embedding.None? || !available ==> f == Familiarity(Error, None, None)
    ensures embedding.Some? && available ==>
              f.tier != Error && f.vector == embedding &&
              (f.tier == Red <==> forall k :: k in index.records ==>
                                    score(index.records[k].values, embedding.value) < PineconeDb.DefaultThreshold)
    ensures embedding.Some? && available && f.tier == Red ==> f.personId.None?
    ensures embedding.Some? && available && f.tier != Red ==>
              exists k :: PineconeDb.IsTop(index.records, embedding.value, score, k) &&
                          f.personId == Some(index.records[k].meta.personId) &&
                          (f.tier == Green <==> IsWithinPeriod(index.records[k].meta.lastChecked, RecencyDays, now))
  {
    if embedding.None? {
      return Familiarity(Error, None, None);
    }
    var vector := embedding.value;
    var response := index.CheckPersonExists(vector, PineconeDb.DefaultThreshold, score, available);
    f := Classify(response, vector, now);
  }

  /** `add_new_person`: returns the new person's id. */
  method AddNewPerson(index: PineconeDb.Index, vector: Vector, now: Time, listingAvailable: bool, upsertAvailable: bool)
    returns (r: Result<int>, ghost scan: seq<string>)
    requires index.Valid()
    modifies index
    ensures index.Valid()
    ensures listingAvailable ==> PineconeDb.IsScan(old(index.records), PineconeDb.ScanLimit, scan)
    ensures !listingAvailable ==> scan == []
    ensures !upsertAvailable ==> r == Failure && index.records == old(index.records)
    ensures upsertAvailable ==>
              r == Success(PineconeDb.NewPersonId(old(index.records), scan, listingAvailable)) &&
              index.records == PineconeDb.FirstRecord(old(index.records), r.value, vector, now)
  {
    r, scan := index.InsertNewPerson(vector, now, listingAvailable, upsertAvailable);
  }

  /** `add_new_visit`, with the default cap (`int(person_id)` is the identity on an int id). */
  method AddNewVisit(index: PineconeDb.Index, vector: Vector, personId: int, now: Time, fault: PineconeDb.WriteFault)
    returns (r: Result<()>, ghost matches: seq<string>)
    requires index.Valid()
    modifies index
    ensures index.Valid()
    ensures PineconeDb.QueryAnswered(fault, PineconeDb.MaxVectorsPerPerson) ==>
              PineconeDb.IsPersonQuery(old(index.records), personId, PineconeDb.MaxVectorsPerPerson + 1, matches)
    ensures !PineconeDb.QueryAnswered(fault, PineconeDb.MaxVectorsPerPerson) ==> matches == []
    ensures (r, index.records) ==
            PineconeDb.StepOutcome(old(index.records), personId, vector, now, PineconeDb.MaxVectorsPerPerson,
                                   matches, fault, PineconeDb.VectorNumber(|matches|, PineconeDb.MaxVectorsPerPerson))
  {
    r, matches := index.InsertVectorForPerson(personId, vector, now, PineconeDb.MaxVectorsPerPerson, fault);
  }

  /** `add_new_visit` through the corrected vector insertion, which never overwrites a retained record. */
  method AddNewVisitRevised(index: PineconeDb.Index, vector: Vector, personId: int, now: Time, fault: PineconeDb.WriteFault)
    returns (r: Result<()>, ghost matches: seq<string>)
    requires index.Valid()
    modifies index
    ensures index.Valid()
    ensures PineconeDb.QueryAnswered(fault, PineconeDb.MaxVectorsPerPerson) ==>
              PineconeDb.IsPersonQuery(old(index.records), personId, PineconeDb.MaxVectorsPerPerson + 1, matches)
    ensures !PineconeDb.QueryAnswered(fault, PineconeDb.MaxVectorsPerPerson) ==> matches == []
    ensures (r, index.records) ==
            PineconeDb.StepOutcome(old(index.records), personId, vector, now, PineconeDb.MaxVectorsPerPerson,
                                   matches, fault, PineconeDb.RevisedNumber(old(index.records), matches))
  {
    r, matches := index.InsertVectorForPersonRevised(personId, vector, now, PineconeDb.MaxVectorsPerPerson, fault);
  }

  /** A first sighting is red; once approved (id 1) the same face is green the same day, and
      yellow fifteen days later; approving that visit stores a second record for person 1. */
  method VisitScenario(v: Vector, t0: Time, score: (Vector, Vector) -> real)
    returns (first: Familiarity, added: Result<int>, second: Familiarity, third: Familiarity,
             index: PineconeDb.Index)
    requires score(v, v) >= PineconeDb.DefaultThreshold
    ensures first == Familiarity(Red, Some(v), None)
    ensures added == Success(1)
    ensures second == Familiarity(Green, Some(v), Some(1))
    ensures third == Familiarity(Yellow, Some(v), Some(1))
    ensures PineconeDb.KeysOf(index.records, 1) == {IdString(1, 1), IdString(1, 2)}
  {
    index := new PineconeDb.Index();
    first := IsFamiliar(index, Some(v), t0, score, true);
    ghost var scan;
    added, scan := AddNewPerson(index, v, t0, true, true);
    PineconeDb.EmptyIndexListing(scan);
    var key1 := IdString(1, 1);
    assert index.records == map[key1 := PineconeDb.Entry(v, PineconeDb.Metadata(1, 1, t0, t0))];
    second := IsFamiliar(index, Some(v), t0, score, true);
    var later := t0 + 15 * MicrosPerDay;
    third := IsFamiliar(index, Some(v), later, score, true);
    ghost var before := index.records;
    assert PineconeDb.KeysOf(before, 1) == {key1};
    ghost var matches;
    var visit;
    visit, matches := AddNewVisit(index, v, 1, later, PineconeDb.NoFault);
    assert matches == [key1];
    assert PineconeDb.VectorNumber(|matches|, PineconeDb.MaxVectorsPerPerson) == 2;
    PineconeDb.KeysOfWrite(before, 1, v, later, 2, 1);
  }
}
