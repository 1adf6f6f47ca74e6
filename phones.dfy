/** The `phones` table as a map from `phone_id` to its row, and the meaning
    of the `INSERT ... ON CONFLICT (phone_id) DO UPDATE` statement that
    `save_phone_data` executes. */
module Phones {
  import opened StoreTypes

  type PhonesTable = map<int, PhoneRow>

  /** Every row sits under its own `phone_id`. */
  ghost predicate WellFormed(phones: PhonesTable) {
    forall k :: k in phones ==> phones[k].phoneId == k
  }

  /** The cells the INSERT branch writes: every column from `features.get`,
      so null wherever the dictionary has no entry. */
  function FromFeatures(features: Features): (cols: Columns)
    ensures forall c :: At(cols, c) == Get(features, Name(c))
  {
    Columns(
      Get(features, "battery_power"), Get(features, "blue"), Get(features, "clock_speed"),
      Get(features, "dual_sim"), Get(features, "fc"), Get(features, "four_g"),
      Get(features, "int_memory"), Get(features, "m_dep"), Get(features, "mobile_wt"),
      Get(features, "n_cores"), Get(features, "pc"), Get(features, "px_height"),
      Get(features, "px_width"), Get(features, "ram"), Get(features, "sc_h"),
      Get(features, "sc_w"), Get(features, "talk_time"), Get(features, "three_g"),
      Get(features, "touch_screen"), Get(features, "wifi"))
  }

  /** The conflict branch: `SET battery_power = EXCLUDED.battery_power,
      ram = EXCLUDED.ram, ts = CURRENT_TIMESTAMP`. */
  function Refresh(row: PhoneRow, features: Features, now: int): (r: PhoneRow)
    ensures r.id == row.id && r.phoneId == row.phoneId && r.ts == now
    ensures At(r.columns, BatteryPower) == Get(features, Name(BatteryPower))
    ensures At(r.columns, Ram) == Get(features, Name(Ram))
    ensures forall c :: c != BatteryPower && c != Ram ==> At(r.columns, c) == At(row.columns, c)
  {
    var excluded := FromFeatures(features);
    assert excluded.batteryPower == At(excluded, BatteryPower);
    assert excluded.ram == At(excluded, Ram);
    row.(columns := row.columns.(batteryPower := excluded.batteryPower, ram := excluded.ram),
         ts := now)
  }

  /** The table after the upsert of `phoneId`; `freshId` is the generated
      row id, used only when the INSERT branch is taken. */
  function Upsert(phones: PhonesTable, phoneId: int, features: Features, now: int, freshId: int)
    : (r: PhonesTable)
    requires WellFormed(phones)
    ensures WellFormed(r)
    // exactly one row for `phoneId`, every other row untouched
    ensures r.Keys == phones.Keys + {phoneId}
    ensures forall k :: k in phones && k != phoneId ==> r[k] == phones[k]
    ensures r[phoneId].ts == now
    ensures At(r[phoneId].columns, BatteryPower) == Get(features, Name(BatteryPower))
    ensures At(r[phoneId].columns, Ram) == Get(features, Name(Ram))
    // a new phone: one more row, fresh id, every supplied feature, null where absent
    ensures phoneId !in phones ==>
      && |r| == |phones| + 1
      && r[phoneId].id == freshId
      && (forall c :: At(r[phoneId].columns, c) == Get(features, Name(c)))
      && (forall c :: Name(c) !in features ==> At(r[phoneId].columns, c) == Null)
    // a known phone: same row id, the other eighteen feature columns preserved
    ensures phoneId in phones ==>
      && |r| == |phones|
      && r[phoneId].id == phones[phoneId].id
      && (forall c :: c != BatteryPower && c != Ram ==>
            At(r[phoneId].columns, c) == At(phones[phoneId].columns, c))
  {
    if phoneId in phones then
      phones[phoneId := Refresh(phones[phoneId], features, now)]
    else
      phones[phoneId := PhoneRow(freshId, phoneId, FromFeatures(features), now)]
  }

  /** Generated row ids are below `next` and no two rows share one. */
  ghost predicate IdsFreshFrom(phones: PhonesTable, next: int) {
    && (forall k :: k in phones ==> phones[k].id < next)
    && (forall k1, k2 :: k1 in phones && k2 in phones && k1 != k2 ==> phones[k1].id != phones[k2].id)
  }

  /** Taking `next` as the id of an inserted row keeps ids distinct, and
      gives the new row an id no other row has. */
  lemma UpsertKeepsIdsDistinct(phones: PhonesTable, phoneId: int, features: Features, now: int, next: int)
    requires WellFormed(phones) && IdsFreshFrom(phones, next)
    ensures var r := Upsert(phones, phoneId, features, now, next);
      IdsFreshFrom(r, if phoneId in phones then next else next + 1)
    ensures phoneId !in phones ==>
      forall k :: k in phones ==> phones[k].id != Upsert(phones, phoneId, features, now, next)[phoneId].id
  {
    var r := Upsert(phones, phoneId, features, now, next);
    var bound := if phoneId in phones then next else next + 1;
    forall k | k in r ensures r[k].id < bound {
      UpsertRowId(phones, phoneId, features, now, next, k);
    }
    forall k1, k2 | k1 in r && k2 in r && k1 != k2 ensures r[k1].id != r[k2].id {
      UpsertRowId(phones, phoneId, features, now, next, k1);
      UpsertRowId(phones, phoneId, features, now, next, k2);
    }
  }

  /** Every row keeps its id, except that a new row takes `freshId`. */
  lemma UpsertRowId(phones: PhonesTable, phoneId: int, features: Features, now: int, freshId: int, k: int)
    requires WellFormed(phones)
    requires k in phones || k == phoneId
    ensures Upsert(phones, phoneId, features, now, freshId)[k].id
         == if k in phones then phones[k].id else freshId
  {
  }

  /** Repeating an upsert leaves the table as one upsert did, except that the
      row's `ts` is the later call's time. */
  lemma UpsertIdempotent(phones: PhonesTable, phoneId: int, features: Features,
                         now1: int, id1: int, now2: int, id2: int)
    requires WellFormed(phones)
    ensures var once := Upsert(phones, phoneId, features, now1, id1);
            Upsert(once, phoneId, features, now2, id2) == once[phoneId := once[phoneId].(ts := now2)]
  {
    var once := Upsert(phones, phoneId, features, now1, id1);
    var row := once[phoneId];
    var excluded := FromFeatures(features);
    // the first call already left these two cells as the second call writes them
    assert row.columns.batteryPower == excluded.batteryPower by {
      assert At(row.columns, BatteryPower) == At(excluded, BatteryPower);
    }
    assert row.columns.ram == excluded.ram by {
      assert At(row.columns, Ram) == At(excluded, Ram);
    }
    assert Refresh(row, features, now2) == row.(ts := now2);
  }

  /** Upserts of two different phones do not affect each other's rows. */
  lemma UpsertsIndependent(phones: PhonesTable, a: int, fa: Features, na: int, ia: int,
                           b: int, fb: Features, nb: int, ib: int)
    requires WellFormed(phones) && a != b
    ensures var r := Upsert(Upsert(phones, a, fa, na, ia), b, fb, nb, ib);
            r[a] == Upsert(phones, a, fa, na, ia)[a] && r[b] == Upsert(phones, b, fb, nb, ib)[b]
  {
  }
}
