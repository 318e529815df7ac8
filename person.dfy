/** `src/person.rs`: people and policemen, their generators, and the
    PESEL-like national identifier.  Every random draw of the source is an
    argument here (`PersonDraws`, `PolicemanDraws`) whose range is checked by
    `InRange`. */
module Persons {
  import opened DateTimes

  const PhoneNumberMin: nat := 100000000
  const PhoneNumberMax: nat := 999999999
  const PeselSuffixMin: nat := 10000
  const PeselSuffixMax: nat := 99999
  const ServiceNumberMin: nat := 100000
  const ServiceNumberMax: nat := 999999
  /** 21 years */
  const MinDaysAfterBirthToEmployment: nat := 7670
  /** 35 years */
  const MaxDaysAfterBirthToEmployment: nat := 12783
  /** 1 year */
  const MinEmploymentDuration: nat := 365
  /** 20 years */
  const MaxEmploymentDuration: nat := 7305
  /** 1970-01-01 00:00:00 Utc */
  const MinBirthDate: Time := 0
  /** 1995-12-01 00:00:00 Utc */
  const MaxBirthDate: Time := 817776000

  const U64Limit: nat := 0x1_0000_0000_0000_0000

  datatype Person = Person(
    id: nat,
    firstName: string,
    lastName: string,
    birthDate: Time,
    phoneNumber: nat,
    peselNumber: nat)

  datatype PolicemanState = Available | Occupied | Resigned

  datatype Policeman = Policeman(
    person: Person,
    state: PolicemanState,
    serviceNumber: nat,
    rank: string,
    employmentDate: Time,
    resignmentDate: Time)

  /** The year, month and day chrono reports for a date. */
  datatype CalendarDate = CalendarDate(year: int, month: nat, day: nat) {
    predicate Valid() {
      && -0x8000_0000 <= year < 0x8000_0000  // chrono's year is an i32
      && 1 <= month <= 12
      && 1 <= day <= 31
    }
  }

  /** The draws behind `Person::generate_with_id`: a timestamp for
      `generate_birth_date` together with its calendar date, the PESEL
      suffix, the names drawn from the frequency tables and the phone
      number. */
  datatype PersonDraws = PersonDraws(
    birthTimestamp: int,
    birthCalendar: CalendarDate,
    peselSuffix: nat,
    firstName: string,
    lastName: string,
    phoneNumber: nat)
  {
    predicate InRange() {
      && MinBirthDate <= birthTimestamp < MaxBirthDate
      && birthCalendar.Valid()
      && PeselSuffixMin <= peselSuffix < PeselSuffixMax
      && PhoneNumberMin <= phoneNumber < PhoneNumberMax
    }
  }

  /** The draws behind the two policeman generators: those of the person,
      the days between birth and employment, the days of service, the
      service number and the rank. */
  datatype PolicemanDraws = PolicemanDraws(
    person: PersonDraws,
    daysAfterBirth: nat,
    employmentDays: nat,
    serviceNumber: nat,
    rank: string)
  {
    predicate InRange() {
      && person.InRange()
      && MinDaysAfterBirthToEmployment <= daysAfterBirth < MaxDaysAfterBirthToEmployment
      && MinEmploymentDuration <= employmentDays < MaxEmploymentDuration
      && ServiceNumberMin <= serviceNumber < ServiceNumberMax
    }
  }

  // ---------------------------------------------------------------------
  // The PESEL-like identifier

  /** `year as u64 % 100`: a negative `i32` year is sign-extended to 64 bits
      before the remainder is taken. */
  function YearDigits(year: int): (yy: nat)
    requires -0x8000_0000 <= year < 0x8000_0000
    ensures yy < 100
    ensures year >= 0 ==> yy == year % 100
  {
    (if year >= 0 then year else year + U64Limit) % 100
  }

  /** The identifier: two digits of year, two of month, two of day, then the
      five-digit suffix. */
  function Pesel(date: CalendarDate, suffix: nat): (r: nat)
    requires date.Valid()
    ensures suffix < 100000 ==> r % 100000 == suffix && r < 100000000000
    ensures YearDigits(date.year) >= 10 ==> r >= 10000000000
  {
    ((YearDigits(date.year) * 100 + date.month) * 100 + date.day) * 100000 + suffix
  }

  /** `birth_date_to_pesel`, which builds the identifier in a mutable `u64`
      accumulator.  The accumulator never leaves `u64`. */
  method BirthDateToPesel(date: CalendarDate, suffix: nat) returns (output: nat)
    requires date.Valid()
    requires PeselSuffixMin <= suffix < PeselSuffixMax
    ensures output == Pesel(date, suffix)
    ensures output < U64Limit
  {
    output := YearDigits(date.year);
    output := output * 100;
    output := output + date.month;
    output := output * 100;
    output := output + date.day;
    output := output * 100000;
    output := output + suffix;
  }

  datatype PeselFields = PeselFields(yy: nat, mm: nat, dd: nat, suffix: nat)

  /** Reading the fields back out of an identifier. */
  function DecodePesel(pesel: nat): PeselFields
  {
    var date := pesel / 100000;
    PeselFields(date / 10000, date / 100 % 100, date % 100, pesel % 100000)
  }

  /** The identifier decodes to the year digits, month, day and suffix it
      was built from, because the suffix stays below 100000 and month and
      day below 100. */
  lemma DecodeEncodePesel(date: CalendarDate, suffix: nat)
    requires date.Valid()
    requires suffix < 100000
    ensures DecodePesel(Pesel(date, suffix)) == PeselFields(YearDigits(date.year), date.month, date.day, suffix)
  {
    var yy := YearDigits(date.year);
    var ym := yy * 100 + date.month;
    var ymd := ym * 100 + date.day;
    var p := Pesel(date, suffix);
    assert p == ymd * 100000 + suffix;
    assert p / 100000 == ymd && p % 100000 == suffix;
    assert ymd / 100 == ym && ymd % 100 == date.day;
    assert ym / 100 == yy && ym % 100 == date.month;
    assert ymd / 10000 == yy;
  }

  /** Two calendar dates and suffixes give the same identifier only when
      they agree on year digits, month, day and suffix. */
  lemma PeselInjective(d1: CalendarDate, s1: nat, d2: CalendarDate, s2: nat)
    requires d1.Valid() && d2.Valid() && s1 < 100000 && s2 < 100000
    requires Pesel(d1, s1) == Pesel(d2, s2)
    ensures YearDigits(d1.year) == YearDigits(d2.year) && d1.month == d2.month
    ensures d1.day == d2.day && s1 == s2
  {
    DecodeEncodePesel(d1, s1);
    DecodeEncodePesel(d2, s2);
  }

  // ---------------------------------------------------------------------
  // Date offsets

  /** `generate_birth_date`: a timestamp in [1970-01-01, 1995-12-01) moved
      to the start of its day. */
  function GenerateBirthDate(timestamp: int): (birth: Time)
    requires MinBirthDate <= timestamp < MaxBirthDate
    ensures MinBirthDate <= birth <= timestamp < MaxBirthDate
    ensures birth % SecondsPerDay == 0
  {
    StartOfDay(timestamp)
  }

  /** `generate_birth_date_from_employment_date`: 7670 to 12782 days before
      the employment date. */
  function BirthDateFromEmploymentDate(employment: Time, days: nat): (birth: Time)
    requires MinDaysAfterBirthToEmployment <= days < MaxDaysAfterBirthToEmployment
    ensures AddDays(birth, days) == employment
    ensures MinDaysAfterBirthToEmployment * SecondsPerDay <= employment - birth < MaxDaysAfterBirthToEmployment * SecondsPerDay
  {
    SubDays(employment, days)
  }

  /** `generate_employment_date_from_birth_date`: 7670 to 12782 days after
      the birth date. */
  function EmploymentDateFromBirthDate(birth: Time, days: nat): (employment: Time)
    requires MinDaysAfterBirthToEmployment <= days < MaxDaysAfterBirthToEmployment
    ensures SubDays(employment, days) == birth
    ensures MinDaysAfterBirthToEmployment * SecondsPerDay <= employment - birth < MaxDaysAfterBirthToEmployment * SecondsPerDay
  {
    AddDays(birth, days)
  }

  /** `generate_resignation_date_from_employment_date`: 365 to 7304 days
      after the employment date, so always strictly later. */
  function ResignationDateFromEmploymentDate(employment: Time, days: nat): (resignment: Time)
    requires MinEmploymentDuration <= days < MaxEmploymentDuration
    ensures resignment > employment
    ensures SubDays(resignment, days) == employment
    ensures MinEmploymentDuration * SecondsPerDay <= resignment - employment < MaxEmploymentDuration * SecondsPerDay
  {
    AddDays(employment, days)
  }

  // ---------------------------------------------------------------------
  // Generators

  /** `Person::generate_with_id`. */
  function GeneratePerson(d: PersonDraws, id: nat): (p: Person)
    requires d.InRange()
    ensures p.id == id
    ensures p.firstName == d.firstName && p.lastName == d.lastName
    ensures MinBirthDate <= p.birthDate < MaxBirthDate && p.birthDate % SecondsPerDay == 0
    ensures PhoneNumberMin <= p.phoneNumber < PhoneNumberMax
    ensures p.peselNumber < U64Limit
    ensures DecodePesel(p.peselNumber)
      == PeselFields(YearDigits(d.birthCalendar.year), d.birthCalendar.month, d.birthCalendar.day, d.peselSuffix)
  {
    DecodeEncodePesel(d.birthCalendar, d.peselSuffix);
    Person(id, d.firstName, d.lastName, GenerateBirthDate(d.birthTimestamp),
           d.phoneNumber, Pesel(d.birthCalendar, d.peselSuffix))
  }

  /** `change_to_random_surname`: only the surname changes. */
  function ChangeSurname(p: Person, newLastName: string): (r: Person)
    ensures r.lastName == newLastName
    ensures r.id == p.id && r.firstName == p.firstName && r.birthDate == p.birthDate
    ensures r.phoneNumber == p.phoneNumber && r.peselNumber == p.peselNumber
  {
    p.(lastName := newLastName)
  }

  /** `Policeman::generate_with_id`: born, employed 21 to 35 years later,
      resigning 1 to 20 years after that; starts Available. */
  function GeneratePoliceman(d: PolicemanDraws, id: nat): (p: Policeman)
    requires d.InRange()
    ensures p.person == GeneratePerson(d.person, id)
    ensures p.state == Available
    ensures p.person.birthDate < p.employmentDate < p.resignmentDate
    ensures p.employmentDate == AddDays(p.person.birthDate, d.daysAfterBirth)
    ensures p.resignmentDate == AddDays(p.employmentDate, d.employmentDays)
    ensures ServiceNumberMin <= p.serviceNumber < ServiceNumberMax && p.rank == d.rank
  {
    var person := GeneratePerson(d.person, id);
    var employment := EmploymentDateFromBirthDate(person.birthDate, d.daysAfterBirth);
    Policeman(person, Available, d.serviceNumber, d.rank, employment,
              ResignationDateFromEmploymentDate(employment, d.employmentDays))
  }

  /** `Policeman::generate_just_employed_with_id`: employed on the given
      date, with the birth date patched to 21 to 35 years before it.  The
      patch does not touch the identifier, which still encodes the calendar
      date drawn for `generate_birth_date`. */
  function GenerateJustEmployedPoliceman(d: PolicemanDraws, employment: Time, id: nat): (p: Policeman)
    requires d.InRange()
    ensures p.state == Available
    ensures p.person.id == id
    ensures p.employmentDate == employment
    ensures p.person.birthDate < employment < p.resignmentDate
    ensures AddDays(p.person.birthDate, d.daysAfterBirth) == employment
    ensures p.resignmentDate == AddDays(employment, d.employmentDays)
    ensures ServiceNumberMin <= p.serviceNumber < ServiceNumberMax && p.rank == d.rank
    ensures p.person == GeneratePerson(d.person, id).(birthDate := p.person.birthDate)
  {
    var person := GeneratePerson(d.person, id);
    var patched := person.(birthDate := BirthDateFromEmploymentDate(employment, d.daysAfterBirth));
    Policeman(patched, Available, d.serviceNumber, d.rank, employment,
              ResignationDateFromEmploymentDate(employment, d.employmentDays))
  }
}
