/**
 * The customer entity: its columns, and the in-memory `contacts` list that
 * `addContact` and `removeContact` maintain together with each contact's
 * back-reference.
 */
module CustomerModel {
  import opened Wrappers
  import ContactModel

  datatype CustomerStatus = Active | Inactive | Suspended | Archived
  datatype CustomerType = Company | Individual | Administration

  /** A row of `customers`; `code` and `companyName` are NOT NULL. */
  datatype Customer = Customer(
    code: string,
    companyName: string,
    contactFirstName: Option<string>,
    contactLastName: Option<string>,
    email: Option<string>,
    phone: Option<string>,
    mobile: Option<string>,
    siret: Option<string>,
    paymentTermDays: int,
    status: CustomerStatus,
    customerType: CustomerType)

  /** The initial value of `paymentTermDays` on the entity and its DTO. */
  const DefaultPaymentTermDays := 30

  /** A contact together with its id, as it sits in the `contacts` list. */
  type ContactEntry = (int, ContactModel.Contact)

  /** Lombok's `equals` on `Contact`: every field but the `customer` back-reference. */
  predicate SameContact(a: ContactEntry, b: ContactEntry)
  {
    a.0 == b.0 && a.1.(customerId := None) == b.1.(customerId := None)
  }

  /** The position of the first element equal to `e`. */
  function FirstMatch(s: seq<ContactEntry>, e: ContactEntry): (r: Option<nat>)
    ensures r.None? <==> forall i | 0 <= i < |s| :: !SameContact(s[i], e)
    ensures r.Some? ==> r.value < |s| && SameContact(s[r.value], e) && forall j | 0 <= j < r.value :: !SameContact(s[j], e)
  {
    if s == [] then None
    else if SameContact(s[0], e) then Some(0)
    else
      match FirstMatch(s[1..], e)
      case None =>
        assert forall i | 1 <= i < |s| :: s[i] == s[1..][i - 1];
        None
      case Some(i) =>
        assert forall j | 1 <= j < i + 1 :: s[j] == s[1..][j - 1];
        Some(i + 1)
  }

  /** `List.remove(Object)`: drop the first element equal to `e`, if any. */
  function RemoveFirst(s: seq<ContactEntry>, e: ContactEntry): (r: seq<ContactEntry>)
    ensures (forall i | 0 <= i < |s| :: !SameContact(s[i], e)) ==> r == s
    ensures forall i | 0 <= i < |s| && SameContact(s[i], e) && (forall j | 0 <= j < i :: !SameContact(s[j], e)) ::
      r == s[..i] + s[i + 1..]
  {
    match FirstMatch(s, e)
    case None => s
    case Some(i) => s[..i] + s[i + 1..]
  }

  /**
   * `getPrimaryContact`: the first contact flagged primary; without one,
   * the first contact; `null` for an empty list.
   */
  function PrimaryContact(s: seq<ContactEntry>): (r: Option<ContactEntry>)
    ensures r.None? <==> s == []
    ensures forall i | 0 <= i < |s| && s[i].1.isPrimary && (forall j | 0 <= j < i :: !s[j].1.isPrimary) ::
      r == Some(s[i])
    ensures s != [] && (forall i | 0 <= i < |s| :: !s[i].1.isPrimary) ==> r == Some(s[0])
  {
    match FirstPrimary(s)
    case Some(i) => Some(s[i])
    case None => if s == [] then None else Some(s[0])
  }

  /** The index of the first contact flagged primary. */
  function FirstPrimary(s: seq<ContactEntry>): (r: Option<nat>)
    ensures r.None? ==> forall i | 0 <= i < |s| :: !s[i].1.isPrimary
    ensures r.Some? ==> r.value < |s| && s[r.value].1.isPrimary && forall j | 0 <= j < r.value :: !s[j].1.isPrimary
  {
    if s == [] then None
    else if s[0].1.isPrimary then Some(0)
    else
      match FirstPrimary(s[1..])
      case None => None
      case Some(i) =>
        assert forall j | 1 <= j < i + 1 :: s[j] == s[1..][j - 1];
        Some(i + 1)
  }

  /** `getActiveContactsCount`: the contacts whose status is ACTIVE. */
  function CountActive(s: seq<ContactEntry>): (r: nat)
    ensures r <= |s|
    ensures r == 0 <==> forall i | 0 <= i < |s| :: s[i].1.status != ContactModel.Active
    ensures r == |s| <==> forall i | 0 <= i < |s| :: s[i].1.status == ContactModel.Active
  {
    if s == [] then 0
    else
      var rest := CountActive(s[1..]);
      assert forall i | 1 <= i < |s| :: s[i] == s[1..][i - 1];
      assert forall i | 0 <= i < |s| - 1 :: s[1..][i] == s[i + 1];
      (if s[0].1.status == ContactModel.Active then 1 else 0) + rest
  }

  /** The `Customer` object of a session, with its loaded `contacts` list. */
  class CustomerEntity {
    const id: int
    var contacts: seq<ContactEntry>

    constructor (id: int)
      ensures this.id == id && contacts == []
    {
      this.id := id;
      contacts := [];
    }

    /** `addContact`: append the contact, pointing its `customer` at this customer. */
    method AddContact(contactId: int, c: ContactModel.Contact) returns (attached: ContactEntry)
      modifies this
      ensures attached == (contactId, c.(customerId := Some(id)))
      ensures contacts == old(contacts) + [attached]
    {
      attached := (contactId, c.(customerId := Some(id)));
      contacts := contacts + [attached];
    }

    /** `removeContact`: drop the first equal contact and clear the back-reference. */
    method RemoveContact(e: ContactEntry) returns (detached: ContactEntry)
      modifies this
      ensures detached == (e.0, e.1.(customerId := None))
      ensures contacts == RemoveFirst(old(contacts), e)
    {
      contacts := RemoveFirst(contacts, e);
      detached := (e.0, e.1.(customerId := None));
    }

    function PrimaryContactOfList(): Option<ContactEntry>
      reads this
    {
      PrimaryContact(contacts)
    }

    function ActiveContactsCount(): nat
      reads this
    {
      CountActive(contacts)
    }
  }

  /** Removing a contact that was just appended, and matched nothing before, restores the list. */
  lemma RemoveAfterAdd(s: seq<ContactEntry>, e: ContactEntry)
    requires forall i | 0 <= i < |s| :: !SameContact(s[i], e)
    ensures RemoveFirst(s + [e], e) == s
  {
    var t := s + [e];
    assert SameContact(t[|s|], e);
    assert forall j | 0 <= j < |s| :: t[j] == s[j];
    assert t[..|s|] == s;
  }

  /** Removing shortens the list by one exactly when an equal contact was present. */
  lemma RemoveLength(s: seq<ContactEntry>, e: ContactEntry)
    ensures |RemoveFirst(s, e)| == if exists i | 0 <= i < |s| :: SameContact(s[i], e) then |s| - 1 else |s|
  {
    match FirstMatch(s, e)
    case None =>
    case Some(i) =>
      assert SameContact(s[i], e);
  }

  /** A primary contact added to a list without one becomes the primary contact. */
  lemma AddedPrimaryBecomesPrimary(s: seq<ContactEntry>, e: ContactEntry)
    requires forall i | 0 <= i < |s| :: !s[i].1.isPrimary
    requires e.1.isPrimary
    ensures PrimaryContact(s + [e]) == Some(e)
  {
    var t := s + [e];
    assert forall j | 0 <= j < |s| :: t[j] == s[j];
    assert t[|s|] == e;
  }
}
