# Phone price predictions: the store behind `DatabaseHandler`

This project models the persistence layer of the phone price prediction
service in Dafny. `DatabaseHandler` in `services/ml_service/db_handler.py`
keeps two PostgreSQL tables:

- `phones` holds one feature snapshot per `phone_id`;
- `predictions` is an append-only log of predicted price ranges.

The class has two write operations and two read operations, and each call
runs in its own transaction.

The model keeps the tables as values:

- `phones` is a `map<int, PhoneRow>` keyed by `phone_id`.
- `predictions` is a `seq<Prediction>` in insertion order.
- Each SQL statement becomes the function that gives its meaning.

| file | module | what it holds |
|---|---|---|
| `store_types.dfy` | `StoreTypes` | the 20 feature columns and their dictionary keys, nullable cells, the row types, `Result` and the error kinds |
| `phones.dfy` | `Phones` | the `INSERT ... ON CONFLICT (phone_id) DO UPDATE` statement as `Upsert`, with its partial overwrite, id freshness and idempotence |
| `seq_facts.dfy` | `SeqFacts` | two facts about sequence concatenation used by the grouping proofs |
| `grouping.dfy` | `Grouping` | `GROUP BY`/`ORDER BY` over the log: `date_trunc('hour', ts)`, selection by key, the ascending distinct keys, and the proof that the groups partition the rows |
| `stats.dfy` | `Stats` | `get_prediction_stats`: the trailing window, counts per category, the percentage `ROUND(.., 2)` |
| `timeline.dfy` | `Timeline` | `get_prediction_distribution_timeline`: counts per (hour, category) |
| `db_handler.dfy` | `DbHandler` | the class `DatabaseHandler`, whose save methods change the two tables in place, commit on success and roll back on error |

The conventions:

- Times are integers, in seconds. `now` is passed to every call and stands
  for `CURRENT_TIMESTAMP`/`NOW()`.
- The hour bucket is `ts - ts % 3600`, the floor to the hour.
- A percentage is an integer number of hundredths. It is computed as
  `(20000 * count + total) / (2 * total)`, which is `ROUND` half-up on exact
  decimals.
- The window test is strict: `ts > now - hours * 3600`.
- A call's failure is an input, `fault: Option<DbError>`. This covers a
  failed connection, a failed statement and a failed commit. With
  `Some(e)` the call returns `Err(e)` and leaves the object unchanged
  (rollback and re-raise). With `None` it commits and returns
  `Ok(Saved(id, ts))`, the `RETURNING id, ts` of the affected row.
- The INSERT statement lists 20 feature columns, `battery_power` through
  `wifi`, and the model has all 20.

## Model

| member | source | states |
|---|---|---|
| `Phones.FromFeatures` | services/ml_service/db_handler.py:61-83 | every inserted column holds `features.get(name)` for its own name: the dictionary's value, or null when the key is absent |
| `Phones.Refresh` | services/ml_service/db_handler.py:55-59 | on conflict only `battery_power` and `ram` take the new values and `ts` becomes now; the id, the phone id and the other 18 feature columns are kept |
| `Phones.Upsert` | services/ml_service/db_handler.py:46-83 | afterwards exactly one row has the phone id, and every other row is unchanged. A new phone adds one row with a fresh id holding all supplied features, null where absent. A known phone keeps its row count, row id and 18 of its feature columns. Either way `battery_power`, `ram` and `ts` are the call's |
| `Phones.UpsertKeepsIdsDistinct` | services/ml_service/db_handler.py:46-60 | row ids stay distinct, and an inserted row's returned id belongs to no earlier row |
| `Phones.UpsertIdempotent` | services/ml_service/db_handler.py:55-59 | repeating the same upsert yields the table one upsert gave, except that the row's `ts` is the later time |
| `Phones.UpsertsIndependent` | services/ml_service/db_handler.py:46-59 | upserts of two different phone ids do not affect each other's rows |
| `Grouping.HourOf` | services/ml_service/db_handler.py:120 | the hour bucket is a multiple of 3600 and is the start of the hour containing `ts` |
| `Grouping.Select` | services/ml_service/db_handler.py:108 | the group of a key holds exactly the rows with that key, and no more rows than it selects from |
| `Grouping.SelectEmpty` | services/ml_service/db_handler.py:108 | a group is empty exactly when no row of the window has its key, so `GROUP BY` yields no group for an absent key |
| `Grouping.SelectAppend` | services/ml_service/db_handler.py:107-108 | the group of a key within rows `a` followed by rows `b` is the group within `a` followed by the group within `b` |
| `Grouping.Keys` | services/ml_service/db_handler.py:108-109 | the group keys are strictly ascending and are exactly the keys occurring in the rows |
| `Grouping.SumCountsCover` | services/ml_service/db_handler.py:104-108 | summing group sizes over any distinct key list covering all rows counts every row exactly once |
| `Grouping.GroupsPartition` | services/ml_service/db_handler.py:104-108 | the group sizes of a `GROUP BY` add up to the number of rows |
| `Grouping.SelectCommutes` | services/ml_service/db_handler.py:125 | grouping by hour, then category, selects the same rows as category, then hour |
| `Stats.Window` | services/ml_service/db_handler.py:107 | the window holds exactly the logged predictions with `ts > now - hours*3600`, in log order |
| `Stats.WindowAppend` | services/ml_service/db_handler.py:107 | appending a prediction adds it to the window exactly when its time is inside, and changes nothing else |
| `Stats.RoundPercent` | services/ml_service/db_handler.py:105 | the percentage in hundredths lies in [0, 10000] and is within half a hundredth of count/total×100, halves rounded up |
| `Stats.PredictionStats` | services/ml_service/db_handler.py:101-110 | empty exactly when the window is; strictly ascending by category; every count is at least 1 and equals the window's predictions of that category; every category of the window has a row; every percentage is that count's rounded share |
| `Stats.StatsCountsSumToWindow` | services/ml_service/db_handler.py:104-108 | the counts add up to the number of predictions in the window |
| `Stats.StatsPercentagesSumTo100` | services/ml_service/db_handler.py:105 | for a nonempty window the percentages add up to 100 within 0.005 per returned category |
| `Stats.StatsOfFourCategories` | services/ml_service/db_handler.py:105 | with categories 0..3 there are at most four rows, and the percentages add up to 100 within 0.02 |
| `Stats.SinglePrediction` | services/ml_service/db_handler.py:101-110 | one in-window prediction yields the single row (its category, count 1, 100.00) |
| `Stats.AppendedPredictionCounted` | services/ml_service/db_handler.py:90-110 | appending a prediction raises the stats total by one exactly when its time is inside the window |
| `Timeline.PredictionTimeline` | services/ml_service/db_handler.py:118-127 | rows strictly ascending by (hour, category). Each row's hour is a multiple of 3600 and is the truncated time of some window prediction of its category. Each count is that group's size, at least 1. Every window prediction falls in some row |
| `Timeline.TimelineRowsShape` | services/ml_service/db_handler.py:118-127 | for ascending hours, the rows are ordered, each is a nonempty group of a listed hour, and each prediction of a listed hour is covered |
| `Timeline.OrderedConcat` | services/ml_service/db_handler.py:126 | one hour's rows followed by rows of later hours remain ordered by (hour, category) |
| `Timeline.TimelineCountsSumToWindow` | services/ml_service/db_handler.py:122-125 | the timeline counts add up to the number of predictions in the window |
| `Timeline.TimelineAgreesWithStats` | services/ml_service/db_handler.py:101-127 | for the same `now` and hours, the timeline summed per category gives each stats count, and 0 for categories absent from the stats |
| `DbHandler.DatabaseHandler.constructor` | services/ml_service/db_handler.py:10-18 | a handler over empty tables satisfies the invariant (row ids distinct and below the next id) |
| `DbHandler.DatabaseHandler.SavePhoneData` | services/ml_service/db_handler.py:43-85 | on a fault it returns the error and leaves everything unchanged. Otherwise `phones` becomes `Upsert` of the old table and `predictions` is unchanged. It returns the row's id and `now`, and an inserted row's id is new. The invariant is kept |
| `DbHandler.DatabaseHandler.SavePrediction` | services/ml_service/db_handler.py:87-96 | on a fault it returns the error and leaves everything unchanged. Otherwise the log grows by exactly one row (the phone id, category and `now`) with every earlier row kept, `phones` is unchanged, and the returned id is new |
| `DbHandler.DatabaseHandler.GetPredictionStats` | services/ml_service/db_handler.py:98-111 | returns the error on a fault, otherwise `PredictionStats` of the current log; the window is 24 hours unless the caller gives `hours` |
| `DbHandler.DatabaseHandler.GetPredictionDistributionTimeline` | services/ml_service/db_handler.py:115-128 | returns the error on a fault, otherwise `PredictionTimeline` of the current log; the window is 24 hours unless the caller gives `hours` |
| `DbHandler.SaveTwiceThenQuery` | services/ml_service/db_handler.py:43-111 | saving phone 1 twice leaves one row, stamped with the second time and holding the second `ram`; after one prediction of category 2, the stats of the default 24-hour window are exactly `[(2, 1, 100.00)]` |

## Left out

- The connection settings read from the environment, the `psycopg2` driver and the logging in `_test_connection` (db_handler.py:10-25, 31, 37). These are I/O. A failing connection, statement or commit is the `fault` input, and which fault occurs when is not modelled.
- Generated row ids. The schema and its sequences are not part of this model. Ids come from a counter per table, and only freshness is promised: no gaplessness and no order. The sequence numbers PostgreSQL consumes on conflict or rollback are not modelled.
- The `ts` of an inserted row is assumed to default to the current time. The schema that would say so is not part of this model.
- Time zones, sub-second timestamps and the scale PostgreSQL's `numeric` division picks. Times are integer seconds, and percentages are exact hundredths.
- SQL column types. Every feature value is a nullable real, and a value the database would reject shows up only as a `fault`.
- Concurrent calls: racing upserts on one `phone_id`, and interleavings between the two tables. The model is sequential.
- `DbHandler.DatabaseHandler.constructor` starts from empty tables rather than whatever the database already holds.
- services/ml_service/main.py: HTTP routing around a classifier whose source is not part of this model. It never calls the store.
- services/requests/req.py: a random HTTP load generator, which is network I/O and randomness.
