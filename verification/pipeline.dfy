/**
 * One authorised /predict request for a submission ID: the fetched record
 * (or its absence), the cached result if there is one, otherwise rename,
 * transform, score, classify and store. Every raised error ends the request
 * with nothing stored.
 *
 * The fetched record, the scaler, the encoder, the feature list, the
 * trained network (`score`), the threshold and the clock (`now`) are
 * parameters: the model sees what they return, not how.
 */
module Pipeline {
  import opened Wrappers
  import opened Frames
  import opened Cache
  import Columns
  import Transform
  import Classifier

  /** Why a request produced no result. */
  datatype Failure =
    | NotFound                                 // no submission with that ID (the 404 page)
    | TransformFailed(error: Transform.Error)  // transform_new raised
    | ScoringFailed                            // the network raised on the feature row
    | Unclassified                             // no band matched: classificacao was never bound

  /** The renaming step applied to the record: the labels are renamed, the
      values and their order are untouched. */
  function RenameFrame(df: Frame): (r: Frame)
    ensures Names(r) == Columns.RenameColumns(Names(df))
    ensures Cells(r) == Cells(df)
  {
    var names := Columns.RenameColumns(Names(df));
    seq(|df|, i requires 0 <= i < |df| => Column(names[i], df[i].cell))
  }

  /** Renaming an already renamed record changes nothing. */
  lemma RenameFrameIdempotent(df: Frame)
    ensures RenameFrame(RenameFrame(df)) == RenameFrame(df)
  {
    var r := RenameFrame(df);
    Columns.RenameIdempotent(Names(df));
    var rr := RenameFrame(r);
    assert |rr| == |r|;
    forall i | 0 <= i < |r|
      ensures rr[i] == r[i]
    {
      assert Names(rr)[i] == Names(r)[i];
      assert Cells(rr)[i] == Cells(r)[i];
    }
  }

  /** The result computed for a record that is not cached yet: it exists
      exactly when the transformer and the network succeed, the threshold
      is one of the three supported ones and the probability lies in
      [0, 1]; it then carries that probability, the band Classify gives
      it and the time of the request. */
  function Compute(record: Frame, p: Transform.Params, featureCols: seq<string>, t: real,
                   score: seq<Cell> -> Option<real>, now: string): (r: Result<Entry, Failure>)
    ensures var x := Transform.Transformed(RenameFrame(record), p, featureCols);
      r.Ok? <==>
        && x.Ok?
        && score(x.value).Some?
        && Classifier.Supported(t)
        && 0.0 <= score(x.value).value <= 1.0
    ensures var x := Transform.Transformed(RenameFrame(record), p, featureCols);
      x.Err? ==> r == Err(TransformFailed(x.error))
    ensures r.Ok? ==>
      && Classifier.Classify(r.value.probability, t) == Some(Classifier.Band(r.value.level, r.value.interpretation))
      && r.value.probability == score(Transform.Transformed(RenameFrame(record), p, featureCols).value).value
      && r.value.timestamp == now
  {
    var x := Transform.Transformed(RenameFrame(record), p, featureCols);
    if x.Err? then Err(TransformFailed(x.error))
    else
      match score(x.value)
      case None => Err(ScoringFailed)
      case Some(prob) =>
        match Classifier.Classify(prob, t)
        case None => Err(Unclassified)
        case Some(band) => Ok(Entry(prob, band.level, band.interpretation, now))
  }

  /** The answer to a request and the store after it. The record is
      fetched before the store is consulted, so an ID that is no longer in
      the spreadsheet is not found even when its result is stored. A stored
      result is returned as it is; a new one is stored, and the response is
      then read back from the store. */
  function Respond(s: Store, capacity: nat, id: string, record: Option<Frame>,
                   p: Transform.Params, featureCols: seq<string>, t: real,
                   score: seq<Cell> -> Option<real>, now: string): (res: (Result<Entry, Failure>, Store))
    requires Wellformed(s, capacity) && capacity > 0
    ensures Wellformed(res.1, capacity)
    ensures record.None? ==> res == (Err(NotFound), s)
    ensures record.Some? && id in s.entries ==> res == (Ok(s.entries[id]), s)
    ensures res.0.Err? ==> res.1 == s
    ensures res.0.Ok? ==> id in res.1.entries && res.1.entries[id] == res.0.value
    ensures record.Some? && id !in s.entries ==>
      res.0 == Compute(record.value, p, featureCols, t, score, now)
  {
    if record.None? then (Err(NotFound), s)
    else if id in s.entries then (Ok(s.entries[id]), s)
    else
      match Compute(record.value, p, featureCols, t, score, now)
      case Err(f) => (Err(f), s)
      case Ok(e) =>
        var s' := Inserted(s, id, e, capacity);
        (Ok(s'.entries[id]), s')
  }

  /** Lines 46-47: the service starts with an empty store bounded at
      MaxResults. */
  method NewStore() returns (c: ResultCache)
    ensures fresh(c) && c.Valid()
    ensures c.capacity == MaxResults && c.Content() == Store([], map[])
  {
    c := new ResultCache(MaxResults);
  }

  /** Lines 286-287: however requests go, the service never holds more than
      MaxResults results. */
  lemma StoreWithinBound(s: Store, id: string, record: Option<Frame>,
                         p: Transform.Params, featureCols: seq<string>, t: real,
                         score: seq<Cell> -> Option<real>, now: string)
    requires Wellformed(s, MaxResults)
    ensures |Respond(s, MaxResults, id, record, p, featureCols, t, score, now).1.entries| <= MaxResults
  {
    EntriesWithinCapacity(Respond(s, MaxResults, id, record, p, featureCols, t, score, now).1, MaxResults);
  }

  /** Results are memoised: once a request for an ID has succeeded, a later
      request for it, while the ID is still in the spreadsheet, returns the
      same result and leaves the store as it is, whatever the network,
      the threshold or the clock then say. */
  lemma RespondIsStable(s: Store, capacity: nat, id: string, record: Option<Frame>,
                        p: Transform.Params, featureCols: seq<string>, t: real,
                        score: seq<Cell> -> Option<real>, now: string,
                        record2: Frame, p2: Transform.Params, featureCols2: seq<string>, t2: real,
                        score2: seq<Cell> -> Option<real>, now2: string)
    requires Wellformed(s, capacity) && capacity > 0
    requires Respond(s, capacity, id, record, p, featureCols, t, score, now).0.Ok?
    ensures var (r1, s1) := Respond(s, capacity, id, record, p, featureCols, t, score, now);
      Respond(s1, capacity, id, Some(record2), p2, featureCols2, t2, score2, now2) == (r1, s1)
  {
  }

  /** A first successful request for a new ID stores its result and evicts
      at most the oldest entry: the store never grows beyond capacity. */
  lemma RespondStoresNew(s: Store, capacity: nat, id: string, record: Frame,
                         p: Transform.Params, featureCols: seq<string>, t: real,
                         score: seq<Cell> -> Option<real>, now: string)
    requires Wellformed(s, capacity) && capacity > 0 && id !in s.entries
    requires Compute(record, p, featureCols, t, score, now).Ok?
    ensures var (r, s1) := Respond(s, capacity, id, Some(record), p, featureCols, t, score, now);
      && r == Compute(record, p, featureCols, t, score, now)
      && s1 == Inserted(s, id, r.value, capacity)
      && s1.keys[|s1.keys| - 1] == id
      && |s1.keys| <= capacity
  {
    var (r, s1) := Respond(s, capacity, id, Some(record), p, featureCols, t, score, now);
    assert s1 == Inserted(s, id, r.value, capacity);
  }

  /** The /predict handler past its token and ID checks, on the in-memory
      store: the same answer and the same new store as Respond. */
  method Predict(cache: ResultCache, id: string, record: Option<Frame>,
                 p: Transform.Params, featureCols: seq<string>, t: real,
                 score: seq<Cell> -> Option<real>, now: string) returns (r: Result<Entry, Failure>)
    requires cache.Valid()
    modifies cache
    ensures cache.Valid()
    ensures (r, cache.Content()) == Respond(old(cache.Content()), cache.capacity, id, record, p, featureCols, t, score, now)
  {
    if record.None? {
      return Err(NotFound);
    }
    var hit := cache.Get(id);
    if hit.Some? {
      return Ok(hit.value);
    }
    var df := RenameFrame(record.value);
    var x := Transform.TransformNew(df, p, featureCols);
    if x.Err? {
      return Err(TransformFailed(x.error));
    }
    var prob := score(x.value);
    if prob.None? {
      return Err(ScoringFailed);
    }
    var band := Classifier.Classify(prob.value, t);
    if band.None? {
      return Err(Unclassified);
    }
    cache.Put(id, Entry(prob.value, band.value.level, band.value.interpretation, now));
    var stored := cache.Get(id);
    r := Ok(stored.value);
  }
}
