/**
 * The CRM contact entity and the values its DTO mapping computes from it:
 * full name, display name, formatted address, overdue flag and the days
 * since the last interaction.
 */
module ContactModel {
  import opened Wrappers
  import opened Text

  /** `Contact.ContactType`; `Regular` is the enum's `CONTACT`. */
  datatype ContactType = Regular | Lead | Prospect | Partner | Supplier | Internal
  datatype ContactStatus = Active | Inactive | Blocked | Archived | Bounced
  datatype Civility = Mr | Mrs | Ms | Dr | Prof
  datatype ContactPriority = Low | Normal | High | Critical

  /**
   * A row of `contacts`. Dates are seconds since the epoch. `customerId` is
   * the `customer` association: every stored row has one (NOT NULL foreign
   * key); a contact detached by `Customer.removeContact` has none.
   */
  datatype Contact = Contact(
    code: string,
    contactType: ContactType,
    status: ContactStatus,
    civility: Option<Civility>,
    firstName: string,
    lastName: string,
    jobTitle: Option<string>,
    department: Option<string>,
    email: Option<string>,
    phone: Option<string>,
    mobile: Option<string>,
    addressLine1: Option<string>,
    addressLine2: Option<string>,
    city: Option<string>,
    postalCode: Option<string>,
    country: Option<string>,
    customerId: Option<int>,
    priority: ContactPriority,
    isPrimary: bool,
    lastContactDate: Option<int>,
    nextContactDate: Option<int>,
    lastContactNote: Option<string>)

  /** `getCivilityDisplay`: the French abbreviation, empty when no civility is set. */
  function CivilityDisplay(c: Option<Civility>): (r: string)
    ensures r == "" <==> c.None?
    ensures c.Some? ==> 2 <= |r| <= 4
  {
    match c
    case None => ""
    case Some(Mr) => "M."
    case Some(Mrs) => "Mme"
    case Some(Ms) => "Mlle"
    case Some(Dr) => "Dr"
    case Some(Prof) => "Pr"
  }

  /** No two civilities share an abbreviation. */
  lemma CivilityDisplayInjective(a: Option<Civility>, b: Option<Civility>)
    ensures CivilityDisplay(a) == CivilityDisplay(b) ==> a == b
  {
  }

  /** The text ahead of the first name: the civility and a space, when there is one. */
  function NamePrefix(c: Contact): string
  {
    if c.civility.Some? then CivilityDisplay(c.civility) + " " else ""
  }

  /**
   * `getFullName`: the civility (if any) and a space, the first name, then a
   * space and the last name unless the last name is blank.
   */
  function FullName(c: Contact): (r: string)
    ensures var off := |NamePrefix(c)|;
      && off + |c.firstName| <= |r|
      && r[..off] == NamePrefix(c)
      && r[off..off + |c.firstName|] == c.firstName
      && (IsBlank(c.lastName) <==> |r| == off + |c.firstName|)
      && (!IsBlank(c.lastName) ==> r[off + |c.firstName|..] == " " + c.lastName)
  {
    var tail := if IsBlank(c.lastName) then "" else " " + c.lastName;
    ConcatParts(NamePrefix(c), c.firstName, tail);
    NamePrefix(c) + c.firstName + tail
  }

  /** Without a civility and with a blank last name, the full name is the first name alone. */
  lemma FullNameOfFirstNameOnly(c: Contact)
    requires c.civility.None? && IsBlank(c.lastName)
    ensures FullName(c) == c.firstName
  {
    var r := FullName(c);
    assert |r| == |c.firstName|;
    assert r == r[0..|c.firstName|];
  }

  /** `getDisplayName`: the full name, then " - " and the job title unless it is NULL or blank. */
  function DisplayName(c: Contact): (r: string)
    ensures StartsWith(r, FullName(c))
    ensures r == FullName(c) <==> IsNullOrBlank(c.jobTitle)
    ensures !IsNullOrBlank(c.jobTitle) ==> r[|FullName(c)|..] == " - " + c.jobTitle.value
  {
    var tail := if IsNullOrBlank(c.jobTitle) then "" else " - " + c.jobTitle.value;
    ConcatParts(FullName(c), tail, "");
    FullName(c) + tail + ""
  }

  /** `hasAddress`: the first address line is set and not blank. */
  predicate HasAddress(c: Contact)
  {
    !IsNullOrBlank(c.addressLine1)
  }

  /** ", " and the value, for a column that is neither NULL nor blank. */
  function Segment(s: Option<string>): (r: string)
    ensures r == "" <==> IsNullOrBlank(s)
  {
    if IsNullOrBlank(s) then "" else ", " + s.value
  }

  /** ", postalCode city" when both columns are non-NULL; blank values are not checked. */
  function CitySegment(c: Contact): (r: string)
    ensures r == "" <==> c.postalCode.None? || c.city.None?
  {
    if c.postalCode.Some? && c.city.Some? then ", " + c.postalCode.value + " " + c.city.value else ""
  }

  /**
   * `getFormattedAddress`: empty without a first line; otherwise the first
   * line followed by the second line, the postal code and city, and the
   * country, each only when present.
   */
  function FormattedAddress(c: Contact): (r: string)
    ensures r == "" <==> !HasAddress(c)
    ensures HasAddress(c) ==> StartsWith(r, c.addressLine1.value)
    ensures HasAddress(c) ==>
      r[|c.addressLine1.value|..] == Segment(c.addressLine2) + CitySegment(c) + Segment(c.country)
  {
    if !HasAddress(c) then ""
    else
      var line := c.addressLine1.value;
      EmptyIsBlank();
      assert line != "";
      var rest := Segment(c.addressLine2) + CitySegment(c) + Segment(c.country);
      AppendAssoc(line, Segment(c.addressLine2), CitySegment(c));
      AppendAssoc(line, Segment(c.addressLine2) + CitySegment(c), Segment(c.country));
      assert (line + rest)[..|line|] == line;
      assert (line + rest)[|line|..] == rest;
      line + Segment(c.addressLine2) + CitySegment(c) + Segment(c.country)
  }

  /** With nothing but a first line, the formatted address is that line. */
  lemma FormattedAddressOfOneLine(c: Contact)
    requires HasAddress(c)
    requires IsNullOrBlank(c.addressLine2) && c.city.None? && IsNullOrBlank(c.country)
    ensures FormattedAddress(c) == c.addressLine1.value
  {
    var r := FormattedAddress(c);
    assert r[|c.addressLine1.value|..] == "";
    assert r == r[..|c.addressLine1.value|] + r[|c.addressLine1.value|..];
  }

  /** A blank postal code and city still print: the city part only checks for NULL. */
  lemma BlankCityStillPrinted(c: Contact)
    requires HasAddress(c) && IsNullOrBlank(c.addressLine2) && IsNullOrBlank(c.country)
    requires c.postalCode == Some("") && c.city == Some("")
    ensures FormattedAddress(c) == c.addressLine1.value + ",  "
  {
    var r := FormattedAddress(c);
    var line := c.addressLine1.value;
    assert CitySegment(c) == ",  ";
    assert r[|line|..] == ",  ";
    assert r == r[..|line|] + r[|line|..];
  }

  /** `isOverdue`: a follow-up is scheduled strictly before `now`. */
  predicate IsOverdue(c: Contact, now: int)
  {
    c.nextContactDate.Some? && c.nextContactDate.value < now
  }

  /** Local wall-clock seconds since the epoch to the epoch day (`toLocalDate`): floor division. */
  function EpochDay(t: int): (d: int)
    ensures d * 86400 <= t < (d + 1) * 86400
  {
    t / 86400
  }

  /**
   * `getDaysSinceLastContact`: -1 without a last contact, otherwise the
   * calendar days from that contact's date to today.
   */
  function DaysSinceLastContact(c: Contact, now: int): (r: int)
    ensures c.lastContactDate.None? ==> r == -1
    ensures c.lastContactDate.Some? ==> r == EpochDay(now) - EpochDay(c.lastContactDate.value)
    ensures c.lastContactDate.Some? && c.lastContactDate.value <= now ==> r >= 0
  {
    match c.lastContactDate
    case None => -1
    case Some(t) =>
      EpochDayMonotone(t, now);
      EpochDay(now) - EpochDay(t)
  }

  lemma EpochDayMonotone(a: int, b: int)
    ensures a <= b ==> EpochDay(a) <= EpochDay(b)
  {
    if a <= b {
      assert EpochDay(a) * 86400 <= a <= b < (EpochDay(b) + 1) * 86400;
    }
  }

  /** -1 is ambiguous: a last contact dated tomorrow reads the same as none at all. */
  lemma DaysSinceCannotTellTomorrowFromNever(c: Contact, now: int)
    requires c.lastContactDate == Some(now + 86400)
    ensures DaysSinceLastContact(c, now) == DaysSinceLastContact(c.(lastContactDate := None), now)
  {
    assert EpochDay(now + 86400) == EpochDay(now) + 1;
  }

  /** `getFullName` as the string builder runs it, one append at a time. */
  method BuildFullName(c: Contact) returns (fullName: string)
    ensures fullName == FullName(c)
  {
    fullName := "";
    if c.civility.Some? {
      fullName := fullName + (CivilityDisplay(c.civility) + " ");
    }
    assert fullName == NamePrefix(c);
    fullName := fullName + c.firstName;
    if !IsBlank(c.lastName) {
      fullName := fullName + (" " + c.lastName);
    }
    assert fullName == NamePrefix(c) + c.firstName + (if IsBlank(c.lastName) then "" else " " + c.lastName);
  }

  /** `getFormattedAddress` as the string builder runs it, one append at a time. */
  method BuildFormattedAddress(c: Contact) returns (address: string)
    ensures address == FormattedAddress(c)
  {
    if !HasAddress(c) {
      return "";
    }
    address := c.addressLine1.value;
    if !IsNullOrBlank(c.addressLine2) {
      address := address + (", " + c.addressLine2.value);
    }
    assert address == c.addressLine1.value + Segment(c.addressLine2);
    if c.postalCode.Some? && c.city.Some? {
      address := address + (", " + c.postalCode.value + " " + c.city.value);
    }
    assert address == c.addressLine1.value + Segment(c.addressLine2) + CitySegment(c);
    if !IsNullOrBlank(c.country) {
      address := address + (", " + c.country.value);
    }
    assert address == c.addressLine1.value + Segment(c.addressLine2) + CitySegment(c) + Segment(c.country);
  }
}
