/** The values stored in the two tables of the phone-prediction database:
    the `phones` feature snapshots and the `predictions` log, and the
    error and result types of the store's operations. */
module StoreTypes {

  /** The feature columns of the `phones` table, in the order of the INSERT
      statement. The key column `phone_id`, the row `id` and `ts` are not
      feature columns. */
  datatype Column =
    | BatteryPower | Blue | ClockSpeed | DualSim | Fc | FourG | IntMemory
    | MDep | MobileWt | NCores | Pc | PxHeight | PxWidth | Ram | ScH | ScW
    | TalkTime | ThreeG | TouchScreen | Wifi

  /** The key under which a column's value is looked up in the request's
      feature dictionary (it is also the column's SQL name). */
  function Name(c: Column): string {
    match c
    case BatteryPower => "battery_power"
    case Blue => "blue"
    case ClockSpeed => "clock_speed"
    case DualSim => "dual_sim"
    case Fc => "fc"
    case FourG => "four_g"
    case IntMemory => "int_memory"
    case MDep => "m_dep"
    case MobileWt => "mobile_wt"
    case NCores => "n_cores"
    case Pc => "pc"
    case PxHeight => "px_height"
    case PxWidth => "px_width"
    case Ram => "ram"
    case ScH => "sc_h"
    case ScW => "sc_w"
    case TalkTime => "talk_time"
    case ThreeG => "three_g"
    case TouchScreen => "touch_screen"
    case Wifi => "wifi"
  }

  /** A nullable numeric cell. */
  datatype Cell = Null | Num(value: real)

  /** The feature cells of one `phones` row. */
  datatype Columns = Columns(
    batteryPower: Cell, blue: Cell, clockSpeed: Cell, dualSim: Cell, fc: Cell,
    fourG: Cell, intMemory: Cell, mDep: Cell, mobileWt: Cell, nCores: Cell,
    pc: Cell, pxHeight: Cell, pxWidth: Cell, ram: Cell, scH: Cell, scW: Cell,
    talkTime: Cell, threeG: Cell, touchScreen: Cell, wifi: Cell)

  /** The cell of column `c`. */
  function At(cols: Columns, c: Column): Cell {
    match c
    case BatteryPower => cols.batteryPower
    case Blue => cols.blue
    case ClockSpeed => cols.clockSpeed
    case DualSim => cols.dualSim
    case Fc => cols.fc
    case FourG => cols.fourG
    case IntMemory => cols.intMemory
    case MDep => cols.mDep
    case MobileWt => cols.mobileWt
    case NCores => cols.nCores
    case Pc => cols.pc
    case PxHeight => cols.pxHeight
    case PxWidth => cols.pxWidth
    case Ram => cols.ram
    case ScH => cols.scH
    case ScW => cols.scW
    case TalkTime => cols.talkTime
    case ThreeG => cols.threeG
    case TouchScreen => cols.touchScreen
    case Wifi => cols.wifi
  }

  /** The request's feature dictionary, as received. */
  type Features = map<string, Cell>

  /** `features.get(key)`: the stored value, or null when the key is absent. */
  function Get(features: Features, key: string): Cell {
    if key in features then features[key] else Null
  }

  /** A row of `phones`: generated `id`, key `phone_id`, one cell per feature
      column, and the time of the last write. */
  datatype PhoneRow = PhoneRow(id: int, phoneId: int, columns: Columns, ts: int)

  /** A row of `predictions`; `category` is `predicted_price_range`. */
  datatype Prediction = Prediction(id: int, phoneId: int, category: int, ts: int)

  /** What `RETURNING id, ts` hands back after a write. */
  datatype Saved = Saved(id: int, ts: int)

  /** The exception raised while connecting, executing or committing; the
      connection context manager rolls back and re-raises it unchanged. */
  datatype DbError = ConnectFailed | StatementFailed | CommitFailed

  datatype Result<T> = Ok(value: T) | Err(error: DbError)

  datatype Option<T> = None | Some(value: T)
}
