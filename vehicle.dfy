/** `src/vehicle.rs`: vehicles and their registration plates. */
module Vehicles {
  import opened Wrappers

  const ManufactureYearMin: nat := 2005
  const ManufactureYearMax: nat := 2020
  const ExpectedRegistrationPlateLength: nat := 8
  const DefaultSeatCount: nat := 5

  /** The characters a plate is completed with: `'0'..='9'` then
      `'A'..='Z'`. */
  const PlateAlphabet: string := "0123456789ABCDEFGHIJKLMNOPQRSTUVWXYZ"

  datatype VehicleState = Available | Occupied

  datatype Vehicle = Vehicle(
    id: nat,
    model: string,
    registrationPlate: string,
    manufactureYear: nat,
    seatCount: nat,
    state: VehicleState,
    vehicleType: string)

  /** The draws behind `Vehicle::generate_with_id`: the model and plate code
      drawn from their frequency tables, one alphabet index per plate
      character, and the manufacture year.  Characters of a code stand for
      its bytes (the codes are ASCII). */
  datatype VehicleDraws = VehicleDraws(
    model: string,
    plateCode: string,
    plateCharacters: seq<nat>,
    manufactureYear: nat)
  {
    predicate InRange() {
      && (forall k :: 0 <= k < |plateCharacters| ==> plateCharacters[k] < |PlateAlphabet|)
      && (|plateCode| < ExpectedRegistrationPlateLength ==>
            |plateCharacters| >= ExpectedRegistrationPlateLength - |plateCode| - 1)
      && ManufactureYearMin <= manufactureYear < ManufactureYearMax
    }
  }

  /** The plate of a code and the alphabet indices, `None` where
      `EXPECTED_REGISTRATION_PLATE_LENGTH - len` underflows (a `usize`
      overflow panic): the code, a space, then one alphabet character per
      index until the plate is 8 characters long.  So a plate exists exactly
      for codes of at most 7 characters. */
  function Plate(code: string, picks: seq<nat>): (r: Option<string>)
    requires forall k :: 0 <= k < |picks| ==> picks[k] < |PlateAlphabet|
    requires |code| < ExpectedRegistrationPlateLength ==> |picks| >= ExpectedRegistrationPlateLength - |code| - 1
    ensures r.Some? <==> |code| <= ExpectedRegistrationPlateLength - 1
    ensures r.Some? ==>
      && |r.value| == ExpectedRegistrationPlateLength
      && r.value[..|code| + 1] == code + [' ']
      && forall k :: |code| + 1 <= k < |r.value| ==> r.value[k] in PlateAlphabet
  {
    if |code| + 1 > ExpectedRegistrationPlateLength then None
    else
      var n := ExpectedRegistrationPlateLength - (|code| + 1);
      Some(code + [' '] + seq(n, k requires 0 <= k < n => PlateAlphabet[picks[k]]))
  }

  /** `generate_registration_plate`, which pushes the code, a space and then
      one character per loop round onto a `String`. */
  method GenerateRegistrationPlate(code: string, picks: seq<nat>) returns (plate: Option<string>)
    requires forall k :: 0 <= k < |picks| ==> picks[k] < |PlateAlphabet|
    requires |code| < ExpectedRegistrationPlateLength ==> |picks| >= ExpectedRegistrationPlateLength - |code| - 1
    ensures plate == Plate(code, picks)
  {
    var registrationPlate := code;
    registrationPlate := registrationPlate + [' '];
    if |registrationPlate| > ExpectedRegistrationPlateLength {
      return None;
    }
    var rounds := ExpectedRegistrationPlateLength - |registrationPlate|;
    var k := 0;
    while k < rounds
      invariant k <= rounds
      invariant registrationPlate == code + [' '] + seq(k, j requires 0 <= j < k => PlateAlphabet[picks[j]])
    {
      registrationPlate := registrationPlate + [PlateAlphabet[picks[k]]];
      k := k + 1;
    }
    return Some(registrationPlate);
  }

  /** `Vehicle::generate_with_id`: an Available off-road ("terenowy")
      five-seater with the given id, or `None` when its plate panics. */
  function GenerateVehicle(d: VehicleDraws, id: nat): (v: Option<Vehicle>)
    requires d.InRange()
    ensures v.Some? <==> |d.plateCode| < ExpectedRegistrationPlateLength
    ensures v.Some? ==> v.value.id == id && v.value.state == Available
    ensures v.Some? ==> v.value.seatCount == DefaultSeatCount && v.value.vehicleType == "terenowy"
    ensures v.Some? ==> ManufactureYearMin <= v.value.manufactureYear < ManufactureYearMax
    ensures v.Some? ==> v.value.model == d.model && Some(v.value.registrationPlate) == Plate(d.plateCode, d.plateCharacters)
  {
    match Plate(d.plateCode, d.plateCharacters)
    case None => None
    case Some(plate) =>
      Some(Vehicle(id, d.model, plate, d.manufactureYear, DefaultSeatCount, Available, "terenowy"))
  }
}
