/**
 * The worked comparison of lib/__tests__/calculations.test.ts (a Honda Freed
 * against an MG4 over five years), with its figures worked out exactly, and
 * two requests the validators turn away.
 */
module Scenarios {
  import opened Types
  import opened Calculations
  import opened Validators

  /** A petrol car driven 1,000 km a month, bought outright. */
  const HondaFreed: Vehicle := Vehicle("ice1", "Honda Freed", 600000.0, None, None, None,
                                       Some(1000.0), None, None, None, None,
                                       Combustion(None, 30.0, 12.0))

  /** An EV with a stated consumption, driven 1,000 km a month, bought outright. */
  const Mg4: Vehicle := Vehicle("ev1", "MG4", 709900.0, None, None, None,
                                Some(1000.0), None, None, None, None,
                                Electric(None, Some(13.5), None, 5.5, None))

  const BasicInput: ComparisonInput := ComparisonInput([HondaFreed, Mg4], 5, 12000.0, None)

  /**
   * Over five years the Honda burns 5,000 litres a year at 30 THB for 150,000
   * THB and loses its 600,000 THB price: 750,000 THB, 12.5 THB per km. The
   * MG4 uses 1,620 kWh a year at 5.5 THB for 44,550 THB and loses its price:
   * 754,450 THB. Both totals are positive, as the test expects.
   */
  lemma BasicIceVersusEv(round2: real -> real)
    ensures |Compare(BasicInput, round2).results| == 2
    ensures Compare(BasicInput, round2).results[0].totalFuelOrElectricity == 150000.0
    ensures Compare(BasicInput, round2).results[0].totalCost == 750000.0
    ensures Compare(BasicInput, round2).results[0].costPerKm == Some(12.5)
    ensures Compare(BasicInput, round2).results[1].totalFuelOrElectricity == 44550.0
    ensures Compare(BasicInput, round2).results[1].totalCost == 754450.0
    ensures Compare(BasicInput, round2).results[0].totalCost > 0.0
    ensures Compare(BasicInput, round2).results[1].totalCost > 0.0
  {
    assert AnnualKmForVehicle(HondaFreed, 12000.0) == 12000.0;
    assert AnnualKmForVehicle(Mg4, 12000.0) == 12000.0;
    IceFuelRule(HondaFreed.powertrain, 12000.0);
    assert AnnualEnergyCost(HondaFreed, 12000.0) == 30000.0;
    assert EvConsumptionRate(Mg4.powertrain) == Some(13.5);
    EvEnergyRule(Mg4.powertrain, 12000.0);
    assert AnnualEnergyCost(Mg4, 12000.0) == 8910.0;
    CompareTotals(BasicInput, round2, 0);
    CompareTotals(BasicInput, round2, 1);
  }

  /** The test vehicles' identifiers and names are within the schema's length limits. */
  lemma TestNamesValid()
    ensures 1 <= Utf16Length(HondaFreed.id) && 1 <= Utf16Length(HondaFreed.name) <= 80
    ensures 1 <= Utf16Length(Mg4.id) && 1 <= Utf16Length(Mg4.name) <= 80
  {
    Utf16LengthBounds(HondaFreed.id);
    Utf16LengthBounds(HondaFreed.name);
    Utf16LengthBounds(Mg4.id);
    Utf16LengthBounds(Mg4.name);
  }

  /** Both test vehicles pass their schemas. */
  lemma TestVehiclesValid()
    ensures ValidICE(HondaFreed) && ValidEV(Mg4)
  {
    TestNamesValid();
  }

  /** The two test vehicles make a valid request, with a horizon of 5 years or none. */
  lemma TestPairValid(horizon: Option<real>)
    requires horizon == None || horizon == Some(5.0)
    ensures ValidComparisonInput(ComparisonRequest([HondaFreed, Mg4], horizon, 12000.0, None))
  {
    TestVehiclesValid();
    PairValid(HondaFreed, Mg4, horizon);
  }

  /** Any two accepted vehicles make a valid request, with a horizon of 5 years or none. */
  lemma PairValid(a: Vehicle, b: Vehicle, horizon: Option<real>)
    requires ValidVehicle(a) && ValidVehicle(b)
    requires horizon == None || horizon == Some(5.0)
    ensures ValidComparisonInput(ComparisonRequest([a, b], horizon, 12000.0, None))
  {
    var both := [a, b];
    assert forall i :: 0 <= i < |both| ==> ValidVehicle(both[i]);
    assert IsInteger(5.0) by { assert (5.0).Floor == 5; }
  }

  /** The same two vehicles make a valid request; either one alone does not. */
  lemma TwoVehiclesRequired()
    ensures ValidComparisonInput(ComparisonRequest([HondaFreed, Mg4], Some(5.0), 12000.0, None))
    ensures !ValidComparisonInput(ComparisonRequest([HondaFreed], Some(5.0), 12000.0, None))
    ensures ParseComparisonInput(ComparisonRequest([HondaFreed, Mg4], None, 12000.0, None)).value.horizonYears == 5
  {
    TestPairValid(Some(5.0));
    TestPairValid(None);
  }

  /** The MG4's identity, price and optional fields pass the base schema whatever its powertrain. */
  lemma Mg4BaseValid(p: Powertrain)
    ensures ValidBase(Mg4.(powertrain := p))
  {
    TestNamesValid();
    var v := Mg4.(powertrain := p);
    assert v.id == Mg4.id && v.name == Mg4.name;
  }

  /** An EV with neither a consumption nor both a range and a battery capacity is refused. */
  lemma EvWithoutConsumptionBasisRejected()
    ensures !ValidEV(Mg4.(powertrain := Electric(Some(400.0), None, None, 5.5, None)))
    ensures !ValidEV(Mg4.(powertrain := Electric(None, Some(0.0), None, 5.5, None)))
    ensures ValidEV(Mg4.(powertrain := Electric(Some(400.0), None, Some(64.0), 5.5, None)))
  {
    var p := Electric(Some(400.0), None, Some(64.0), 5.5, None);
    Mg4BaseValid(p);
    assert HasConsumptionBasis(p);
  }

  /**
   * A name of 41 emoji (U+1F600) is 41 characters but 82 UTF-16 code units,
   * so the 80-unit limit on names refuses it.
   */
  lemma AstralNameTooLong()
    ensures !ValidBase(Mg4.(name := seq(41, i => '\U{1F600}')))
  {
    Utf16LengthAstral(seq(41, i => '\U{1F600}'));
  }
}
