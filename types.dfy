/**
 * The records exchanged between the vehicle form, the validator and the
 * comparison engine (lib/types.ts). Money and distances are exact reals;
 * years and loan terms are natural numbers.
 */
module Types {

  datatype Option<+T> = None | Some(value: T)

  /** `x || 0` on an optional number: an absent value and 0 both read as 0. */
  function OrZero(o: Option<real>): real {
    if o.Some? then o.value else 0.0
  }

  /** JavaScript truthiness of an optional number: present and non-zero. */
  predicate Truthy(o: Option<real>) {
    o.Some? && o.value != 0.0
  }

  datatype VehicleType = ICE | EV

  /** The fields that only one of the two vehicle kinds carries. */
  datatype Powertrain =
    | Combustion(
        fuelType: Option<string>,
        fuelPricePerLiter: real,
        fuelEfficiencyKmPerLiter: real)
    | Electric(
        rangeKmPerCharge: Option<real>,
        energyConsumptionKwhPer100km: Option<real>,
        batteryCapacityKwh: Option<real>,
        electricityPricePerKwh: real,
        batteryWarrantyYears: Option<real>)

  /**
   * A vehicle of either kind. The usage, maintenance and financing fields are
   * common to both kinds: the engine reads them from every vehicle, whatever
   * its type. An absent resale value stands for both `null` and a missing field.
   */
  datatype Vehicle = Vehicle(
    id: string,
    name: string,
    purchasePrice: real,
    downPayment: Option<real>,
    resaleValue: Option<real>,
    notes: Option<string>,
    monthlyKm: Option<real>,
    annualKm: Option<real>,
    annualMaintenanceTHB: Option<real>,
    loanTermYears: Option<nat>,
    interestRateAnnualPct: Option<real>,
    powertrain: Powertrain)
  {
    /** The `type` discriminator of the tagged union. */
    function Type(): VehicleType {
      if powertrain.Combustion? then ICE else EV
    }
  }

  datatype YearlyBreakdownComponent = YearlyBreakdownComponent(
    year: nat,
    fuelOrElectricity: real,
    maintenance: real,
    loan: real,
    depreciation: real,
    cumulativeTotal: real)

  datatype VehicleResultSummary = VehicleResultSummary(
    vehicleId: string,
    name: string,
    vehicleType: VehicleType,
    totalCost: real,
    costPerKm: Option<real>,
    totalFuelOrElectricity: real,
    totalMaintenance: real,
    totalLoanPayments: real,
    resaleOffset: real,
    yearly: seq<YearlyBreakdownComponent>)

  /** What the engine is called with (the horizon already resolved). */
  datatype ComparisonInput = ComparisonInput(
    vehicles: seq<Vehicle>,
    horizonYears: nat,
    annualKm: real,
    discountRatePct: Option<real>)

  datatype ComparisonOutput = ComparisonOutput(results: seq<VehicleResultSummary>)
}
