/** `DatabaseHandler`: the two tables as state that the save operations change
    in place, each call one transaction that either commits its change or
    leaves both tables as they were and re-raises the error. */
module DbHandler {
  import opened StoreTypes
  import opened Phones
  import opened Stats
  import opened Timeline

  class DatabaseHandler {
    /** The `phones` table, keyed by `phone_id`. */
    var phones: PhonesTable
    /** The `predictions` table in insertion order. */
    var predictions: seq<Prediction>
    /** Where the generated row ids of the two tables continue. */
    var nextPhoneRowId: int
    var nextPredictionId: int

    ghost predicate Valid()
      reads this
    {
      && WellFormed(phones)
      && IdsFreshFrom(phones, nextPhoneRowId)
      && (forall i :: 0 <= i < |predictions| ==> predictions[i].id < nextPredictionId)
      && (forall i, j :: 0 <= i < j < |predictions| ==> predictions[i].id != predictions[j].id)
    }

    /** A handler over an empty database. */
    constructor ()
      ensures Valid()
      ensures phones == map[] && predictions == []
    {
      phones := map[];
      predictions := [];
      nextPhoneRowId := 1;
      nextPredictionId := 1;
    }

    /** `save_phone_data(phone_id, features)` at time `now`. `fault` is the
        error the connection, the statement or the commit raises, if any. */
    method SavePhoneData(phoneId: int, features: Features, now: int, fault: Option<DbError>)
      returns (r: Result<Saved>)
      requires Valid()
      modifies this
      ensures Valid()
      // a failed call rolls back: nothing changes and the error is re-raised
      ensures fault.Some? ==> r == Err(fault.value) && unchanged(this)
      // a successful call commits the upsert and returns the row's id and ts
      ensures fault.None? ==>
        && phones == Upsert(old(phones), phoneId, features, now, old(nextPhoneRowId))
        && predictions == old(predictions)
        && r == Ok(Saved(phones[phoneId].id, now))
      // the id of an inserted row is new
      ensures fault.None? && phoneId !in old(phones) ==>
        forall k :: k in old(phones) ==> old(phones)[k].id != r.value.id
    {
      // the statement's effect inside the transaction
      var staged := Upsert(phones, phoneId, features, now, nextPhoneRowId);
      UpsertKeepsIdsDistinct(phones, phoneId, features, now, nextPhoneRowId);
      if fault.Some? {
        // rollback
        r := Err(fault.value);
      } else {
        // commit
        var inserted := phoneId !in phones;
        phones := staged;
        if inserted {
          nextPhoneRowId := nextPhoneRowId + 1;
        }
        r := Ok(Saved(staged[phoneId].id, staged[phoneId].ts));
      }
    }

    /** `save_prediction(phone_id, prediction)` at time `now`. */
    method SavePrediction(phoneId: int, prediction: int, now: int, fault: Option<DbError>)
      returns (r: Result<Saved>)
      requires Valid()
      modifies this
      ensures Valid()
      ensures fault.Some? ==> r == Err(fault.value) && unchanged(this)
      // one more row at the end; every earlier row is kept as it was
      ensures fault.None? ==>
        && r.Ok?
        && predictions == old(predictions) + [Prediction(r.value.id, phoneId, prediction, now)]
        && r.value.ts == now
        && phones == old(phones)
      ensures fault.None? ==>
        forall i :: 0 <= i < |old(predictions)| ==> old(predictions)[i].id != r.value.id
    {
      var row := Prediction(nextPredictionId, phoneId, prediction, now);
      var staged := predictions + [row];
      if fault.Some? {
        r := Err(fault.value);
      } else {
        predictions := staged;
        nextPredictionId := nextPredictionId + 1;
        r := Ok(Saved(row.id, row.ts));
      }
    }

    /** `get_prediction_stats(hours)` at time `now`; the window is the last
        24 hours unless `hours` is given. */
    method GetPredictionStats(now: int, fault: Option<DbError>, hours: int := 24)
      returns (r: Result<seq<StatsRow>>)
      ensures fault.Some? ==> r == Err(fault.value)
      ensures fault.None? ==> r == Ok(PredictionStats(predictions, now, hours))
    {
      if fault.Some? {
        r := Err(fault.value);
      } else {
        r := Ok(PredictionStats(predictions, now, hours));
      }
    }

    /** `get_prediction_distribution_timeline(hours)` at time `now`; the window
        is the last 24 hours unless `hours` is given. */
    method GetPredictionDistributionTimeline(now: int, fault: Option<DbError>, hours: int := 24)
      returns (r: Result<seq<TimelineRow>>)
      ensures fault.Some? ==> r == Err(fault.value)
      ensures fault.None? ==> r == Ok(PredictionTimeline(predictions, now, hours))
    {
      if fault.Some? {
        r := Err(fault.value);
      } else {
        r := Ok(PredictionTimeline(predictions, now, hours));
      }
    }
  }

  /** A client of the handler: phone 1 is saved twice with different feature
      values, category 2 is recorded for it, and the stats of the default
      24-hour window are queried. The table keeps one row for phone 1,
      stamped with the second save's time, and the stats report category 2
      once, at 100.00 percent. */
  method SaveTwiceThenQuery(first: Features, second: Features, t1: int, t2: int)
    returns (table: PhonesTable, stats: Result<seq<StatsRow>>)
    requires t1 < t2
    ensures table.Keys == {1} && table[1].ts == t2
    ensures At(table[1].columns, Ram) == Get(second, Name(Ram))
    ensures stats == Ok([StatsRow(2, 1, 10000)])
  {
    var db := new DatabaseHandler();
    var _ := db.SavePhoneData(1, first, t1, None);
    assert db.phones.Keys == {1};
    var _ := db.SavePhoneData(1, second, t2, None);
    assert db.phones.Keys == {1} && db.phones[1].ts == t2;
    table := db.phones;
    var saved := db.SavePrediction(1, 2, t2, None);
    var p := Prediction(saved.value.id, 1, 2, t2);
    assert db.predictions == [p];
    SinglePrediction(p, t2, 24);
    stats := db.GetPredictionStats(t2, None);
  }
}
