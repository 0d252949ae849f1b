/**
 * Customer creation and deletion, and the default-address flag: each swap
 * clears the flag on every address of the customer and then sets it on one.
 * Each call is one transaction: on an error every table it wrote is put back
 * as it was.
 */
module CustomerService {
  import opened Wrappers
  import opened Errors
  import opened Text
  import opened CustomerModel
  import opened AddressModel
  import opened AddressRepository
  import CustomerRepository
  import ContactRepository
  import SequenceRepository
  import SequenceService

  /** The submitted address form; every field may be NULL. */
  datatype AddressForm = AddressForm(
    addressType: Option<AddressType>,
    labelText: Option<string>,
    street1: Option<string>,
    street2: Option<string>,
    zipCode: Option<string>,
    city: Option<string>,
    state: Option<string>,
    countryCode: Option<string>,
    isDefault: Option<bool>,
    active: Option<bool>,
    contactName: Option<string>,
    contactPhone: Option<string>,
    contactEmail: Option<string>,
    deliveryInstructions: Option<string>)

  /**
   * The submitted customer form; every field may be NULL, and a NULL
   * address list is the same as an empty one. VAT number, credit limit and
   * notes are not part of this model.
   */
  datatype CustomerForm = CustomerForm(
    code: Option<string>,
    companyName: Option<string>,
    contactFirstName: Option<string>,
    contactLastName: Option<string>,
    email: Option<string>,
    phone: Option<string>,
    mobile: Option<string>,
    siret: Option<string>,
    paymentTermDays: Option<int>,
    status: Option<CustomerStatus>,
    customerType: Option<CustomerType>,
    addresses: seq<AddressForm>)

  /** A freshly constructed customer form: only the field initialisers are set. */
  function NewCustomerForm(): CustomerForm
  {
    CustomerForm(None, None, None, None, None, None, None, None,
                 Some(DefaultPaymentTermDays), Some(Active), Some(Company), [])
  }

  /** A freshly constructed address form. */
  function NewAddressForm(): AddressForm
  {
    AddressForm(None, None, None, None, None, None, None, Some("FR"), Some(false), Some(true),
                None, None, None, None)
  }

  /** `validateUniqueFields`: the code if given, then a non-blank email. */
  function ValidateUniqueFields(rows: CustomerRepository.Customers, form: CustomerForm, excludeId: Option<int>)
    : (r: Option<Error>)
    ensures r.None? <==>
      && (form.code.Some? ==> forall k | k in rows && Other(k, excludeId) :: rows[k].code != form.code.value)
      && (!IsNullOrBlank(form.email) ==> forall k | k in rows && Other(k, excludeId) :: rows[k].email != form.email)
    ensures r == Some(DuplicateCode) <==>
      form.code.Some? && exists k | k in rows && Other(k, excludeId) :: rows[k].code == form.code.value
    ensures r == Some(DuplicateEmail) ==>
      !IsNullOrBlank(form.email) && exists k | k in rows && Other(k, excludeId) :: rows[k].email == form.email
    ensures r.None? || r == Some(DuplicateCode) || r == Some(DuplicateEmail)
  {
    if form.code.Some? && (if excludeId.None? then CustomerRepository.ExistsByCode(rows, form.code.value)
                           else CustomerRepository.ExistsByCodeAndIdNot(rows, form.code.value, excludeId.value)) then
      Some(DuplicateCode)
    else if !IsNullOrBlank(form.email) && (if excludeId.None? then CustomerRepository.ExistsByEmail(rows, form.email.value)
                                           else CustomerRepository.ExistsByEmailAndIdNot(rows, form.email.value, excludeId.value)) then
      Some(DuplicateEmail)
    else
      None
  }

  /** Excluding the customer itself, its own code and email never count as duplicates. */
  lemma OwnValuesAllowedOnUpdate(rows: CustomerRepository.Customers, form: CustomerForm, id: int)
    requires id in rows && CustomerRepository.UniqueColumns(rows)
    requires form.code == Some(rows[id].code) && form.email == rows[id].email
    ensures ValidateUniqueFields(rows, form, Some(id)).None?
  {
  }

  /**
   * `toEntity` copies NULLs; the insert then fails on the NOT NULL columns
   * `companyName`, `paymentTermDays`, `status` and `type`.
   */
  function ToEntity(form: CustomerForm, code: string): (r: Option<Customer>)
    ensures r.Some? <==>
      form.companyName.Some? && form.paymentTermDays.Some? && form.status.Some? && form.customerType.Some?
    ensures r.Some? ==>
      && r.value.code == code && r.value.companyName == form.companyName.value
      && r.value.email == form.email && r.value.siret == form.siret
      && r.value.paymentTermDays == form.paymentTermDays.value
      && r.value.status == form.status.value && r.value.customerType == form.customerType.value
  {
    if form.companyName.None? || form.paymentTermDays.None? || form.status.None? || form.customerType.None? then
      None
    else
      Some(Customer(code, form.companyName.value, form.contactFirstName, form.contactLastName,
                    form.email, form.phone, form.mobile, form.siret,
                    form.paymentTermDays.value, form.status.value, form.customerType.value))
  }

  /** A new customer that names only its company is ACTIVE, a COMPANY, with 30 days to pay. */
  lemma NewCustomerDefaults(companyName: string, code: string)
    ensures var c := ToEntity(NewCustomerForm().(companyName := Some(companyName)), code);
      && c.Some?
      && c.value.status == Active && c.value.customerType == Company
      && c.value.paymentTermDays == 30
  {
  }

  /** The code `create` uses: the form's, unless it is NULL or blank. */
  function AssignedCode(counters: map<(string, int), SequenceRepository.Sequence>, form: CustomerForm, year: int): string
  {
    if IsNullOrBlank(form.code) then SequenceService.NextCode(counters, SequenceService.CustomerType, year, SequenceService.CustomerPrefix)
    else form.code.value
  }

  /** A NULL or blank code is replaced by the next CLI code of the year. */
  lemma BlankCodeIsGenerated(counters: map<(string, int), SequenceRepository.Sequence>, form: CustomerForm, year: int)
    requires IsNullOrBlank(form.code)
    ensures AssignedCode(counters, form, year)
      == SequenceService.FormatCode("CLI", year, SequenceService.LastValue(counters, "CUSTOMER", year) + 1)
  {
    SequenceService.AdvanceIncrements(counters, SequenceService.CustomerType, year, SequenceService.CustomerPrefix);
  }

  /**
   * The customer row `create` inserts, or the error: the service's checks,
   * the NOT NULL columns, then the table's unique constraints.
   */
  function CreateCustomerOutcome(rows: CustomerRepository.Customers, form: CustomerForm, code: string)
    : (r: Result<Customer, Error>)
    ensures r.Ok? <==>
      && ValidateUniqueFields(rows, form.(code := Some(code)), None).None?
      && ToEntity(form, code).Some?
      && !CustomerRepository.ClashesOnInsert(rows, ToEntity(form, code).value)
    ensures r.Ok? ==> r.value == ToEntity(form, code).value && r.value.code == code
    ensures r.Ok? ==> forall k | k in rows :: rows[k].code != code
    ensures r == Err(DuplicateCode) <==> CustomerRepository.ExistsByCode(rows, code)
    ensures r.Err? ==> r.error in {DuplicateCode, DuplicateEmail, NotNullViolation, UniqueViolation}
  {
    var unique := ValidateUniqueFields(rows, form.(code := Some(code)), None);
    if unique.Some? then
      Err(unique.value)
    else
      var c := ToEntity(form, code);
      if c.None? then
        Err(NotNullViolation)
      else if CustomerRepository.ClashesOnInsert(rows, c.value) then
        Err(UniqueViolation)
      else
        Ok(c.value)
  }

  /**
   * A blank email passes the service's check but not the column's unique
   * constraint: a second customer with the same blank email is refused by
   * the database.
   */
  lemma BlankEmailClashesOnInsert(rows: CustomerRepository.Customers, form: CustomerForm, code: string, k: int)
    requires k in rows && form.email.Some? && IsBlank(form.email.value) && rows[k].email == form.email
    requires !CustomerRepository.ExistsByCode(rows, code)
    requires ToEntity(form, code).Some?
    ensures CreateCustomerOutcome(rows, form, code) == Err(UniqueViolation)
  {
    var f := form.(code := Some(code));
    assert IsNullOrBlank(f.email);
    assert ValidateUniqueFields(rows, f, None).None?;
    assert CustomerRepository.ClashesOnInsert(rows, ToEntity(form, code).value);
  }

  /** A SIRET is never checked by the service; only the unique constraint refuses a duplicate. */
  lemma DuplicateSiretOnlyRefusedOnInsert(rows: CustomerRepository.Customers, form: CustomerForm, code: string, k: int)
    requires k in rows && form.siret.Some? && rows[k].siret == form.siret
    requires ValidateUniqueFields(rows, form.(code := Some(code)), None).None?
    requires ToEntity(form, code).Some?
    ensures CreateCustomerOutcome(rows, form, code) == Err(UniqueViolation)
  {
    assert CustomerRepository.ClashesOnInsert(rows, ToEntity(form, code).value);
  }

  /**
   * The address `toEntity` builds for customer `customerId`; the insert
   * fails on the NOT NULL columns `type`, `street1`, `zipCode`, `city`,
   * `countryCode`, `isDefault` and `active`.
   */
  function AddressToEntity(form: AddressForm, customerId: int): (r: Option<Address>)
    ensures r.Some? <==>
      && form.addressType.Some? && form.street1.Some? && form.zipCode.Some? && form.city.Some?
      && form.countryCode.Some? && form.isDefault.Some? && form.active.Some?
    ensures r.Some? ==>
      && r.value.customerId == customerId && r.value.isDefault == form.isDefault.value
      && r.value.street1 == form.street1.value && r.value.city == form.city.value
      && r.value.zipCode == form.zipCode.value && r.value.countryCode == form.countryCode.value
  {
    if || form.addressType.None? || form.street1.None? || form.zipCode.None? || form.city.None?
       || form.countryCode.None? || form.isDefault.None? || form.active.None? then
      None
    else
      Some(Address(form.addressType.value, form.labelText, form.street1.value, form.street2,
                   form.zipCode.value, form.city.value, form.state, form.countryCode.value,
                   form.isDefault.value, form.active.value, form.contactName, form.contactPhone,
                   form.contactEmail, form.deliveryInstructions, customerId))
  }

  /**
   * `updateAddressFromDTO`: every non-NULL field of the form replaces the
   * address's; the customer is never touched.
   */
  function MergeAddress(a: Address, form: AddressForm): (r: Address)
    ensures r.customerId == a.customerId
    ensures r.isDefault == form.isDefault.GetOr(a.isDefault)
    ensures form == AddressForm(None, None, None, None, None, None, None, None, None, None, None, None, None, None) ==> r == a
  {
    a.(addressType := form.addressType.GetOr(a.addressType),
       labelText := if form.labelText.Some? then form.labelText else a.labelText,
       street1 := form.street1.GetOr(a.street1),
       street2 := if form.street2.Some? then form.street2 else a.street2,
       zipCode := form.zipCode.GetOr(a.zipCode),
       city := form.city.GetOr(a.city),
       state := if form.state.Some? then form.state else a.state,
       countryCode := form.countryCode.GetOr(a.countryCode),
       isDefault := form.isDefault.GetOr(a.isDefault),
       active := form.active.GetOr(a.active),
       contactName := if form.contactName.Some? then form.contactName else a.contactName,
       contactPhone := if form.contactPhone.Some? then form.contactPhone else a.contactPhone,
       contactEmail := if form.contactEmail.Some? then form.contactEmail else a.contactEmail,
       deliveryInstructions := if form.deliveryInstructions.Some? then form.deliveryInstructions else a.deliveryInstructions)
  }

  /** Merging the same form twice is merging it once. */
  lemma MergeAddressIdempotent(a: Address, form: AddressForm)
    ensures MergeAddress(MergeAddress(a, form), form) == MergeAddress(a, form)
  {
  }

  // ----- createAddresses -----

  /**
   * The addresses `createAddresses` has saved when it stops: those of the
   * leading forms, up to the first one that fails its insert.
   */
  function SavedAddresses(forms: seq<AddressForm>, customerId: int): (r: seq<Address>)
    ensures |r| <= |forms|
    ensures forall i | 0 <= i < |r| :: AddressToEntity(forms[i], customerId) == Some(r[i])
    ensures |r| < |forms| ==> AddressToEntity(forms[|r|], customerId).None?
  {
    if forms == [] then []
    else
      match AddressToEntity(forms[0], customerId)
      case None => []
      case Some(a) =>
        var rest := SavedAddresses(forms[1..], customerId);
        assert forall i | 1 <= i < |forms| :: forms[1..][i - 1] == forms[i];
        [a] + rest
  }

  /** Every form converts exactly when all of them are saved. */
  lemma AllSavedIffAllConvert(forms: seq<AddressForm>, customerId: int)
    ensures |SavedAddresses(forms, customerId)| == |forms| <==>
      forall i | 0 <= i < |forms| :: AddressToEntity(forms[i], customerId).Some?
  {
  }

  /** A list of addresses that matches the forms up to a failing one (or the end) is what is saved. */
  lemma {:induction false} SavedAddressesUnique(forms: seq<AddressForm>, customerId: int, saved: seq<Address>)
    requires |saved| <= |forms|
    requires forall i | 0 <= i < |saved| :: AddressToEntity(forms[i], customerId) == Some(saved[i])
    requires |saved| < |forms| ==> AddressToEntity(forms[|saved|], customerId).None?
    ensures saved == SavedAddresses(forms, customerId)
  {
    if forms != [] && AddressToEntity(forms[0], customerId).Some? {
      assert forall i | 1 <= i < |forms| :: forms[1..][i - 1] == forms[i];
      SavedAddressesUnique(forms[1..], customerId, saved[1..]);
    }
  }

  /** The table after saving `addrs` under consecutive ids from `start`. */
  function InsertAll(rows: Addresses, start: int, addrs: seq<Address>): (r: Addresses)
    ensures forall k :: k in r <==> k in rows || start <= k < start + |addrs|
    ensures forall i | 0 <= i < |addrs| :: r[start + i] == addrs[i]
    ensures forall k | k in rows && !(start <= k < start + |addrs|) :: r[k] == rows[k]
  {
    if addrs == [] then rows
    else InsertAll(rows, start, addrs[..|addrs| - 1])[start + |addrs| - 1 := addrs[|addrs| - 1]]
  }

  /** One more saved address: the insert goes at the next id, and the saved prefix grows by it. */
  lemma SaveStep(before: Addresses, start: int, forms: seq<AddressForm>, customerId: int, saved: seq<Address>, a: Address)
    requires |saved| < |forms| && AddressToEntity(forms[|saved|], customerId) == Some(a)
    requires forall j | 0 <= j < |saved| :: AddressToEntity(forms[j], customerId) == Some(saved[j])
    ensures InsertAll(before, start, saved + [a]) == InsertAll(before, start, saved)[start + |saved| := a]
    ensures forall j | 0 <= j <= |saved| :: AddressToEntity(forms[j], customerId) == Some((saved + [a])[j])
  {
    assert (saved + [a])[..|saved|] == saved;
  }

  /**
   * `createAddresses`: a loop saving each submitted address, as given, for
   * the customer. It stops at the first address whose insert fails, with
   * the earlier ones saved; the caller's transaction then rolls them back.
   */
  method CreateAddresses(addresses: AddressRepository.Table, customerId: int, forms: seq<AddressForm>)
    returns (r: Result<(), Error>)
    modifies addresses
    requires addresses.Valid()
    ensures addresses.Valid()
    ensures var saved := SavedAddresses(forms, customerId);
      && addresses.rows == InsertAll(old(addresses.rows), old(addresses.nextId), saved)
      && addresses.nextId == old(addresses.nextId) + |saved|
      && (r.Ok? <==> |saved| == |forms|)
    ensures r.Err? ==> r.error == NotNullViolation
  {
    ghost var start := addresses.nextId;
    ghost var before := addresses.rows;
    ghost var saved: seq<Address> := [];
    var i := 0;
    while i < |forms|
      invariant 0 <= i <= |forms| && |saved| == i
      invariant forall j | 0 <= j < i :: AddressToEntity(forms[j], customerId) == Some(saved[j])
      invariant addresses.rows == InsertAll(before, start, saved)
      invariant addresses.nextId == start + i
      invariant addresses.Valid()
    {
      var a := AddressToEntity(forms[i], customerId);
      if a.None? {
        SavedAddressesUnique(forms, customerId, saved);
        return Err(NotNullViolation);
      }
      SaveStep(before, start, forms, customerId, saved, a.value);
      addresses.rows := addresses.rows[addresses.nextId := a.value];
      addresses.nextId := addresses.nextId + 1;
      saved := saved + [a.value];
      i := i + 1;
    }
    SavedAddressesUnique(forms, customerId, saved);
    r := Ok(());
  }

  /**
   * `create` stores the submitted addresses as given: two default
   * addresses in one form both end up default.
   */
  lemma CreateMayStoreSeveralDefaults(form: AddressForm, customerId: int)
    requires AddressToEntity(form, customerId).Some? && form.isDefault == Some(true)
    ensures !AtMostOneDefault(InsertAll(map[], 1, SavedAddresses([form, form], customerId)))
  {
    var a := AddressToEntity(form, customerId).value;
    assert [form, form][1..] == [form];
    assert SavedAddresses([form, form], customerId) == [a, a];
    var r := InsertAll(map[], 1, [a, a]);
    assert r[1] == a && r[2] == a;
  }

  // ----- create -----

  /** `create`: the code, then the customer's checks and insert, then its addresses. */
  method Create(customers: CustomerRepository.Table, addresses: AddressRepository.Table,
                seqs: SequenceRepository.Table, form: CustomerForm, year: int) returns (r: Result<int, Error>)
    modifies customers, addresses, seqs
    requires customers.Valid() && addresses.Valid()
    ensures customers.Valid() && addresses.Valid()
    ensures var code := AssignedCode(old(seqs.counters), form, year);
      var o := CreateCustomerOutcome(old(customers.rows), form, code);
      var saved := SavedAddresses(form.addresses, old(customers.nextId));
      && (r.Ok? <==> o.Ok? && |saved| == |form.addresses|)
      && (r.Err? ==> r.error == if o.Err? then o.error else NotNullViolation)
      && (r.Ok? ==>
            && r.value == old(customers.nextId)
            && customers.rows == old(customers.rows)[r.value := o.value]
            && customers.nextId == old(customers.nextId) + 1
            && addresses.rows == InsertAll(old(addresses.rows), old(addresses.nextId), saved)
            && addresses.nextId == old(addresses.nextId) + |saved|
            && seqs.counters == if IsNullOrBlank(form.code)
                                then SequenceService.Advance(old(seqs.counters), SequenceService.CustomerType, year, SequenceService.CustomerPrefix)
                                else old(seqs.counters))
    ensures r.Err? ==>
      && customers.rows == old(customers.rows) && customers.nextId == old(customers.nextId)
      && addresses.rows == old(addresses.rows) && addresses.nextId == old(addresses.nextId)
      && seqs.counters == old(seqs.counters)
  {
    var counters := seqs.counters;
    var code: string;
    if IsNullOrBlank(form.code) {
      code := SequenceService.GenerateCustomerCode(seqs, year);
    } else {
      code := form.code.value;
    }
    r := CreateWithCode(customers, addresses, form, code);
    if r.Err? {
      seqs.counters := counters;
    }
  }

  /** The checks and inserts of `create`, once the code is known. */
  method CreateWithCode(customers: CustomerRepository.Table, addresses: AddressRepository.Table,
                        form: CustomerForm, code: string) returns (r: Result<int, Error>)
    modifies customers, addresses
    requires customers.Valid() && addresses.Valid()
    ensures customers.Valid() && addresses.Valid()
    ensures var o := CreateCustomerOutcome(old(customers.rows), form, code);
      var saved := SavedAddresses(form.addresses, old(customers.nextId));
      && (r.Ok? <==> o.Ok? && |saved| == |form.addresses|)
      && (r.Err? ==> r.error == if o.Err? then o.error else NotNullViolation)
      && (r.Ok? ==>
            && r.value == old(customers.nextId)
            && customers.rows == old(customers.rows)[r.value := o.value]
            && customers.nextId == old(customers.nextId) + 1
            && addresses.rows == InsertAll(old(addresses.rows), old(addresses.nextId), saved)
            && addresses.nextId == old(addresses.nextId) + |saved|)
    ensures r.Err? ==>
      && customers.rows == old(customers.rows) && customers.nextId == old(customers.nextId)
      && addresses.rows == old(addresses.rows) && addresses.nextId == old(addresses.nextId)
  {
    var o := CreateCustomerOutcome(customers.rows, form, code);
    if o.Err? {
      return Err(o.error);
    }
    r := InsertWithAddresses(customers, addresses, o.value, form.addresses);
  }

  /**
   * The two saves of `create` once the customer row is known to fit: the
   * customer, then its addresses; a failing address undoes both.
   */
  method InsertWithAddresses(customers: CustomerRepository.Table, addresses: AddressRepository.Table,
                             c: Customer, forms: seq<AddressForm>) returns (r: Result<int, Error>)
    modifies customers, addresses
    requires customers.Valid() && addresses.Valid()
    requires !CustomerRepository.ClashesOnInsert(customers.rows, c)
    ensures customers.Valid() && addresses.Valid()
    ensures var saved := SavedAddresses(forms, old(customers.nextId));
      && (r.Ok? <==> |saved| == |forms|)
      && (r.Err? ==> r.error == NotNullViolation)
      && (r.Ok? ==>
            && r.value == old(customers.nextId)
            && customers.rows == old(customers.rows)[r.value := c]
            && customers.nextId == old(customers.nextId) + 1
            && addresses.rows == InsertAll(old(addresses.rows), old(addresses.nextId), saved)
            && addresses.nextId == old(addresses.nextId) + |saved|)
    ensures r.Err? ==>
      && customers.rows == old(customers.rows) && customers.nextId == old(customers.nextId)
      && addresses.rows == old(addresses.rows) && addresses.nextId == old(addresses.nextId)
  {
    var customerRows, customerNext := customers.rows, customers.nextId;
    var addressRows, addressNext := addresses.rows, addresses.nextId;
    var id := customers.Insert(c);
    var done := CreateAddresses(addresses, id, forms);
    if done.Err? {
      addresses.rows, addresses.nextId := addressRows, addressNext;
      customers.rows, customers.nextId := customerRows, customerNext;
      r := Err(NotNullViolation);
    } else {
      r := Ok(id);
    }
  }

  // ----- delete -----

  /** The contacts table after the customer's contacts are removed with it. */
  function WithoutContactsOf(rows: ContactRepository.Contacts, customerId: int): (r: ContactRepository.Contacts)
    ensures forall k :: k in r <==> k in rows && rows[k].customerId != Some(customerId)
    ensures forall k | k in r :: r[k] == rows[k]
  {
    map k | k in rows && rows[k].customerId != Some(customerId) :: rows[k]
  }

  /**
   * `delete`: the customer's addresses through the derived `deleteByCustomerId`,
   * which loads them and removes them one by one, then the customer,
   * whose contacts go with it through the cascade on its `contacts` list.
   */
  method Delete(customers: CustomerRepository.Table, addresses: AddressRepository.Table,
                contacts: ContactRepository.Table, id: int) returns (r: Result<(), Error>)
    modifies customers, addresses, contacts
    requires customers.Valid() && addresses.Valid() && contacts.Valid()
    ensures customers.Valid() && addresses.Valid() && contacts.Valid()
    ensures r.Err? <==> id !in old(customers.rows)
    ensures r.Err? ==>
      && r.error == NotFound
      && customers.rows == old(customers.rows) && addresses.rows == old(addresses.rows)
      && contacts.rows == old(contacts.rows)
    ensures r.Ok? ==>
      && customers.rows == old(customers.rows) - {id}
      && addresses.rows == WithoutCustomer(old(addresses.rows), id)
      && contacts.rows == WithoutContactsOf(old(contacts.rows), id)
    ensures customers.nextId == old(customers.nextId) && addresses.nextId == old(addresses.nextId)
      && contacts.nextId == old(contacts.nextId)
  {
    if id !in customers.rows {
      return Err(NotFound);
    }
    addresses.DeleteByCustomerId(id);
    customers.rows := customers.rows - {id};
    contacts.rows := WithoutContactsOf(contacts.rows, id);
    r := Ok(());
  }

  /** After `delete` no address and no contact of the customer is left. */
  lemma DeletedCustomerLeavesNothing(addressRows: Addresses, contactRows: ContactRepository.Contacts, id: int)
    ensures FindByCustomerId(WithoutCustomer(addressRows, id), id) == {}
    ensures ContactRepository.OfCustomer(WithoutContactsOf(contactRows, id), id) == {}
    ensures forall k | k in addressRows && addressRows[k].customerId != id :: k in WithoutCustomer(addressRows, id)
  {
    DeletedCustomerHasNoAddress(addressRows, id);
  }

  // ----- the default flag -----

  /**
   * The table after address `a` is stored under `id` the way the service
   * means it: when `a` is default, every address of its customer loses the
   * flag first.
   */
  function Placed(rows: Addresses, id: int, a: Address): Addresses
  {
    (if a.isDefault then UnsetAllDefault(rows, a.customerId) else rows)[id := a]
  }

  /** A default address stored this way is its customer's only default; other customers are untouched. */
  lemma PlacedDefaultIsSole(rows: Addresses, id: int, a: Address)
    requires a.isDefault
    ensures var r := Placed(rows, id, a);
      && id in r && DefaultOf(r[id], a.customerId)
      && (forall k | k in r && k != id :: !DefaultOf(r[k], a.customerId))
      && (forall k | k in rows && k != id && rows[k].customerId != a.customerId :: r[k] == rows[k])
  {
  }

  /** A non-default address stored this way changes no other row. */
  lemma PlacedNonDefaultKeepsFlags(rows: Addresses, id: int, a: Address)
    requires !a.isDefault
    ensures var r := Placed(rows, id, a);
      r.Keys == rows.Keys + {id} && r[id] == a && forall k | k in rows && k != id :: r[k] == rows[k]
  {
  }

  /** Storing this way never creates a second default for a customer. */
  lemma PlacedKeepsAtMostOneDefault(rows: Addresses, id: int, a: Address)
    requires AtMostOneDefault(rows)
    requires id in rows ==> rows[id].customerId == a.customerId
    ensures AtMostOneDefault(Placed(rows, id, a))
  {
    var r := Placed(rows, id, a);
    if a.isDefault {
      UnsetKeepsAtMostOneDefault(rows, a.customerId);
    }
    forall i, j | i in r && j in r && i != j && r[i].isDefault && r[j].isDefault
      ensures r[i].customerId != r[j].customerId
    {
      if i != id && j != id {
        assert rows[i].isDefault && rows[j].isDefault;
      } else if i == id {
        assert r[j] == (if a.isDefault then UnsetAllDefault(rows, a.customerId) else rows)[j];
      } else {
        assert r[i] == (if a.isDefault then UnsetAllDefault(rows, a.customerId) else rows)[i];
      }
    }
  }

  /**
   * `addAddress`: the customer must exist; a NULL `isDefault` fails on
   * unboxing; a default address clears the customer's defaults before its
   * insert, which may still fail on a NOT NULL column.
   */
  method AddAddress(customers: CustomerRepository.Table, addresses: AddressRepository.Table,
                    customerId: int, form: AddressForm) returns (r: Result<int, Error>)
    modifies addresses
    requires addresses.Valid()
    ensures addresses.Valid()
    ensures r.Err? <==> customerId !in customers.rows || AddressToEntity(form, customerId).None?
    ensures r.Err? ==> r.error == if customerId !in customers.rows then NotFound
                                  else if form.isDefault.None? then NullPointer
                                  else NotNullViolation
    ensures r.Err? ==> addresses.rows == old(addresses.rows) && addresses.nextId == old(addresses.nextId)
    ensures r.Ok? ==>
      && r.value == old(addresses.nextId)
      && addresses.rows == Placed(old(addresses.rows), r.value, AddressToEntity(form, customerId).value)
      && addresses.nextId == old(addresses.nextId) + 1
  {
    if customerId !in customers.rows {
      return Err(NotFound);
    }
    if form.isDefault.None? {
      return Err(NullPointer);
    }
    var before := addresses.rows;
    if form.isDefault.value {
      addresses.UnsetAllDefaultForCustomer(customerId);
    }
    var a := AddressToEntity(form, customerId);
    if a.None? {
      addresses.rows := before;
      return Err(NotNullViolation);
    }
    r := Ok(addresses.nextId);
    addresses.rows := addresses.rows[addresses.nextId := a.value];
    addresses.nextId := addresses.nextId + 1;
  }

  /** An added address is new, so adding keeps one default per customer at most. */
  lemma AddKeepsAtMostOneDefault(rows: Addresses, nextId: int, a: Address)
    requires AtMostOneDefault(rows) && forall k | k in rows :: k < nextId
    ensures AtMostOneDefault(Placed(rows, nextId, a))
  {
    PlacedKeepsAtMostOneDefault(rows, nextId, a);
  }

  /**
   * `updateAddress`: the form is merged into the address; if the result is
   * default, the customer's defaults are cleared and this one set again.
   */
  method UpdateAddress(addresses: AddressRepository.Table, id: int, form: AddressForm) returns (r: Result<(), Error>)
    modifies addresses
    requires addresses.Valid()
    ensures addresses.Valid()
    ensures r.Err? <==> id !in old(addresses.rows)
    ensures r.Err? ==> r.error == NotFound && addresses.rows == old(addresses.rows)
    ensures r.Ok? ==> addresses.rows == Placed(old(addresses.rows), id, MergeAddress(old(addresses.rows)[id], form))
    ensures addresses.nextId == old(addresses.nextId)
  {
    if id !in addresses.rows {
      return Err(NotFound);
    }
    var existing := MergeAddress(addresses.rows[id], form);
    if existing.isDefault {
      addresses.UnsetAllDefaultForCustomer(existing.customerId);
      existing := existing.(isDefault := true);
    }
    addresses.rows := addresses.rows[id := existing];
    r := Ok(());
  }

  /** `setDefaultAddress`: clear the customer's defaults, then set this address's flag. */
  method SetDefaultAddress(addresses: AddressRepository.Table, id: int) returns (r: Result<(), Error>)
    modifies addresses
    requires addresses.Valid()
    ensures addresses.Valid()
    ensures r.Err? <==> id !in old(addresses.rows)
    ensures r.Err? ==> r.error == NotFound && addresses.rows == old(addresses.rows)
    ensures r.Ok? ==> addresses.rows == Placed(old(addresses.rows), id, old(addresses.rows)[id].(isDefault := true))
    ensures addresses.nextId == old(addresses.nextId)
  {
    if id !in addresses.rows {
      return Err(NotFound);
    }
    var address := addresses.rows[id];
    addresses.UnsetAllDefaultForCustomer(address.customerId);
    address := address.(isDefault := true);
    addresses.rows := addresses.rows[id := address];
    r := Ok(());
  }

  /** After `setDefaultAddress`, the address is the only default of its customer. */
  lemma SetDefaultIsSole(rows: Addresses, id: int)
    requires id in rows
    ensures var r := Placed(rows, id, rows[id].(isDefault := true));
      && DefaultOf(r[id], rows[id].customerId)
      && forall k | k in r :: DefaultOf(r[k], rows[id].customerId) <==> k == id
  {
    PlacedDefaultIsSole(rows, id, rows[id].(isDefault := true));
  }

  // ----- the default flag as the persistence context writes it -----

  /**
   * What the table holds when a service call has loaded address `id`,
   * changed it in memory to `pending`, and, when `saved` is default, run
   * the bulk `UPDATE` of `unsetAllDefaultForCustomer` before saving
   * `saved`. The transaction flushes in AUTO mode: a pending change is
   * written before the bulk statement and becomes the entity's snapshot.
   * The statement bypasses the managed entity, and at commit the entity is
   * written again only if it differs from that snapshot.
   */
  function AsFlushed(rows: Addresses, id: int, pending: Address, saved: Address): Addresses
    requires id in rows
  {
    var flushed := if pending != rows[id] then rows[id := pending] else rows;
    var db := if saved.isDefault then UnsetAllDefault(flushed, rows[id].customerId) else flushed;
    if saved != pending then db[id := saved] else db
  }

  /** `setDefaultAddress` as written: nothing is pending before the bulk statement. */
  function SetDefaultAsWritten(rows: Addresses, id: int): Addresses
    requires id in rows
  {
    AsFlushed(rows, id, rows[id], rows[id].(isDefault := true))
  }

  /** `updateAddress` as written: the merged form is pending before the bulk statement. */
  function UpdateAddressAsWritten(rows: Addresses, id: int, form: AddressForm): Addresses
    requires id in rows
  {
    var merged := MergeAddress(rows[id], form);
    AsFlushed(rows, id, merged, merged)
  }

  /**
   * Setting as default an address that is not one yet gives the intended
   * table: the flag change is written after the bulk statement.
   */
  lemma SetDefaultOnOtherAsIntended(rows: Addresses, id: int)
    requires id in rows && !rows[id].isDefault
    ensures SetDefaultAsWritten(rows, id) == Placed(rows, id, rows[id].(isDefault := true))
  {
  }

  /**
   * Setting as default an address that already is one leaves its customer
   * with no default at all: the bulk statement clears the flag, and the
   * unchanged entity is never written back.
   */
  lemma SetDefaultOnDefaultLosesIt(rows: Addresses, id: int)
    requires id in rows && rows[id].isDefault
    ensures var r := SetDefaultAsWritten(rows, id);
      id in r && forall k | k in r :: !DefaultOf(r[k], rows[id].customerId)
  {
    assert rows[id].(isDefault := true) == rows[id];
  }

  /**
   * An update whose merged address is not default stores the merged
   * address and changes no other row.
   */
  lemma UpdateToNonDefaultAsIntended(rows: Addresses, id: int, form: AddressForm)
    requires id in rows && !MergeAddress(rows[id], form).isDefault
    ensures UpdateAddressAsWritten(rows, id, form) == Placed(rows, id, MergeAddress(rows[id], form))
  {
  }

  /**
   * Any update whose merged address is default leaves its customer with no
   * default: the merged fields reach the table by the flush, the bulk
   * statement then clears the flag, and the entity equals its snapshot at
   * commit. Other customers' rows are kept.
   */
  lemma UpdateDefaultLosesIt(rows: Addresses, id: int, form: AddressForm)
    requires id in rows && MergeAddress(rows[id], form).isDefault
    ensures var r := UpdateAddressAsWritten(rows, id, form);
      && id in r && r[id] == MergeAddress(rows[id], form).(isDefault := false)
      && (forall k | k in r :: !DefaultOf(r[k], rows[id].customerId))
      && forall k | k in rows && rows[k].customerId != rows[id].customerId :: k in r && r[k] == rows[k]
  {
    var merged := MergeAddress(rows[id], form);
    var flushed := if merged != rows[id] then rows[id := merged] else rows;
    assert flushed[id] == merged;
  }
}
