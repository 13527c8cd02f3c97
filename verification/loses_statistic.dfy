/** The parsed report: thirteen counts in the fixed category order. */
module Statistic {

  /** The number of categories: of report lines the parser reads, of slots
      in its counts array and of fields in the record. */
  const FieldCount: nat := 13

  datatype LosesStatistic = LosesStatistic(
    tanks: int,
    armouredFightingVehicles: int,
    cannons: int,
    multipleRocketLaunchers: int,
    antiAirDefenseDevices: int,
    planes: int,
    helicopters: int,
    drones: int,
    cruiseMissiles: int,
    shipsOrBoats: int,
    carsAndTankers: int,
    specialEquipment: int,
    personnel: int)
  {
    /** The k-th count in category order, the order in which the builder
        slots are filled. */
    function Field(k: nat): int
      requires k < FieldCount
    {
      match k
      case 0 => tanks
      case 1 => armouredFightingVehicles
      case 2 => cannons
      case 3 => multipleRocketLaunchers
      case 4 => antiAirDefenseDevices
      case 5 => planes
      case 6 => helicopters
      case 7 => drones
      case 8 => cruiseMissiles
      case 9 => shipsOrBoats
      case 10 => carsAndTankers
      case 11 => specialEquipment
      case _ => personnel
    }
  }

  /** The record of a report that could not be segmented. */
  function Empty(): (r: LosesStatistic)
    ensures forall k :: 0 <= k < FieldCount ==> r.Field(k) == 0
  {
    LosesStatistic(0, 0, 0, 0, 0, 0, 0, 0, 0, 0, 0, 0, 0)
  }

  /** The record whose k-th category holds values[k]. */
  function FromCounts(values: seq<int>): (r: LosesStatistic)
    requires |values| == FieldCount
    ensures forall k :: 0 <= k < FieldCount ==> r.Field(k) == values[k]
  {
    LosesStatistic(values[0], values[1], values[2], values[3], values[4], values[5],
                   values[6], values[7], values[8], values[9], values[10], values[11],
                   values[12])
  }

  /** Two records are equal when all thirteen counts are. */
  lemma FieldsDetermine(a: LosesStatistic, b: LosesStatistic)
    requires forall k :: 0 <= k < FieldCount ==> a.Field(k) == b.Field(k)
    ensures a == b
  {
    assert a.Field(0) == b.Field(0) && a.Field(1) == b.Field(1) && a.Field(2) == b.Field(2);
    assert a.Field(3) == b.Field(3) && a.Field(4) == b.Field(4) && a.Field(5) == b.Field(5);
    assert a.Field(6) == b.Field(6) && a.Field(7) == b.Field(7) && a.Field(8) == b.Field(8);
    assert a.Field(9) == b.Field(9) && a.Field(10) == b.Field(10) && a.Field(11) == b.Field(11);
    assert a.Field(12) == b.Field(12);
  }
}
