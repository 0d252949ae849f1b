/**
 * Contact creation, update, deletion, follow-up bookkeeping and the primary
 * flag. Each call is one transaction: on an error every table it wrote is
 * put back as it was.
 */
module ContactService {
  import opened Wrappers
  import opened Errors
  import opened Text
  import opened ContactModel
  import opened ContactRepository
  import CustomerRepository
  import SetUtil
  import SequenceRepository
  import SequenceService

  /**
   * The submitted contact form; every field may be NULL. Fax, website,
   * birth date, notes, opt-ins and preferences are not part of this model.
   */
  datatype ContactForm = ContactForm(
    code: Option<string>,
    contactType: Option<ContactType>,
    status: Option<ContactStatus>,
    civility: Option<Civility>,
    firstName: Option<string>,
    lastName: Option<string>,
    jobTitle: Option<string>,
    department: Option<string>,
    email: Option<string>,
    phone: Option<string>,
    mobile: Option<string>,
    addressLine1: Option<string>,
    addressLine2: Option<string>,
    city: Option<string>,
    postalCode: Option<string>,
    country: Option<string>,
    customerId: Option<int>,
    priority: Option<ContactPriority>,
    isPrimary: Option<bool>,
    lastContactDate: Option<int>,
    nextContactDate: Option<int>,
    lastContactNote: Option<string>)

  /**
   * `validateUniqueFields`: a non-null code, then a non-blank email, must not
   * be held by another contact (all contacts when `excludeId` is NULL).
   */
  function ValidateUniqueFields(rows: Contacts, form: ContactForm, excludeId: Option<int>): (r: Option<Error>)
    ensures r.None? <==>
      && (form.code.Some? ==> forall k | k in rows && Other(k, excludeId) :: rows[k].code != form.code.value)
      && (!IsNullOrBlank(form.email) ==> forall k | k in rows && Other(k, excludeId) :: rows[k].email != form.email)
    ensures r == Some(DuplicateCode) <==>
      form.code.Some? && exists k | k in rows && Other(k, excludeId) :: rows[k].code == form.code.value
    ensures r == Some(DuplicateEmail) ==>
      !IsNullOrBlank(form.email) && exists k | k in rows && Other(k, excludeId) :: rows[k].email == form.email
    ensures r.None? || r == Some(DuplicateCode) || r == Some(DuplicateEmail)
  {
    if form.code.Some? && (if excludeId.None? then ExistsByCode(rows, form.code.value)
                           else ExistsByCodeAndIdNot(rows, form.code.value, excludeId.value)) then
      Some(DuplicateCode)
    else if !IsNullOrBlank(form.email) && (if excludeId.None? then ExistsByEmail(rows, form.email.value)
                                           else ExistsByEmailAndIdNot(rows, form.email.value, excludeId.value)) then
      Some(DuplicateEmail)
    else
      None
  }

  /** A blank email is never looked up: contacts may share one. */
  lemma BlankEmailNeverDuplicate(rows: Contacts, form: ContactForm, excludeId: Option<int>)
    requires IsNullOrBlank(form.email)
    ensures ValidateUniqueFields(rows, form, excludeId) != Some(DuplicateEmail)
  {
  }

  /** On update the contact's own code and email never count as duplicates. */
  lemma OwnValuesAllowedOnUpdate(rows: Contacts, form: ContactForm, id: int)
    requires id in rows && CodesUnique(rows)
    requires form.code == Some(rows[id].code)
    requires form.email.None?
    ensures ValidateUniqueFields(rows, form, Some(id)).None?
  {
  }

  /**
   * `validateBusinessRules`: a LEAD needs an email, a CRITICAL contact a phone
   * or a mobile, and a next contact date may not precede the last one.
   */
  function ValidateBusinessRules(form: ContactForm): (r: Option<Error>)
    ensures r.None? <==>
      && (form.contactType == Some(Lead) ==> !IsNullOrBlank(form.email))
      && (form.priority == Some(Critical) ==> !IsNullOrBlank(form.phone) || !IsNullOrBlank(form.mobile))
      && (form.nextContactDate.Some? && form.lastContactDate.Some? ==>
            form.lastContactDate.value <= form.nextContactDate.value)
    ensures r == Some(EmailRequiredForLead) <==> form.contactType == Some(Lead) && IsNullOrBlank(form.email)
    ensures r == Some(PhoneRequiredForCritical) ==>
      form.priority == Some(Critical) && IsNullOrBlank(form.phone) && IsNullOrBlank(form.mobile)
    ensures r == Some(NextBeforeLast) ==>
      form.nextContactDate.Some? && form.lastContactDate.Some? && form.nextContactDate.value < form.lastContactDate.value
    ensures r.None? || r == Some(EmailRequiredForLead) || r == Some(PhoneRequiredForCritical) || r == Some(NextBeforeLast)
  {
    if form.contactType == Some(Lead) && IsNullOrBlank(form.email) then
      Some(EmailRequiredForLead)
    else if form.priority == Some(Critical) && IsNullOrBlank(form.phone) && IsNullOrBlank(form.mobile) then
      Some(PhoneRequiredForCritical)
    else if form.nextContactDate.Some? && form.lastContactDate.Some?
            && form.nextContactDate.value < form.lastContactDate.value then
      Some(NextBeforeLast)
    else
      None
  }

  /** Follow-ups on the same instant as the last contact are allowed: `isBefore` is strict. */
  lemma SameInstantFollowUpAllowed(form: ContactForm, t: int)
    requires form.contactType != Some(Lead) && form.priority != Some(Critical)
    requires form.lastContactDate == Some(t) && form.nextContactDate == Some(t)
    ensures ValidateBusinessRules(form).None?
  {
  }

  /**
   * `contactMapper.toEntity` followed by `setCustomer`: every field is
   * copied, NULLs included. None when a NOT NULL column would receive NULL,
   * which makes `save` fail.
   */
  function ToEntity(form: ContactForm, code: string, customerId: int, isPrimary: bool): (r: Option<Contact>)
    ensures r.Some? <==>
      form.contactType.Some? && form.status.Some? && form.firstName.Some? && form.lastName.Some? && form.priority.Some?
    ensures r.Some? ==>
      && r.value.code == code && r.value.customerId == Some(customerId) && r.value.isPrimary == isPrimary
      && Merge(r.value, form.(code := Some(code), isPrimary := Some(isPrimary))) == r.value
  {
    if form.contactType.Some? && form.status.Some? && form.firstName.Some? && form.lastName.Some? && form.priority.Some? then
      Some(Contact.Contact(code, form.contactType.value, form.status.value, form.civility, form.firstName.value,
                   form.lastName.value, form.jobTitle, form.department, form.email, form.phone, form.mobile,
                   form.addressLine1, form.addressLine2, form.city, form.postalCode, form.country,
                   Some(customerId), form.priority.value, isPrimary, form.lastContactDate, form.nextContactDate,
                   form.lastContactNote))
    else
      None
  }

  /** `updateContactFromDTO`: the non-null fields of the form overwrite the entity; the customer is not touched. */
  function Merge(c: Contact, form: ContactForm): Contact
  {
    c.(code := form.code.GetOr(c.code),
       contactType := form.contactType.GetOr(c.contactType),
       status := form.status.GetOr(c.status),
       civility := if form.civility.Some? then form.civility else c.civility,
       firstName := form.firstName.GetOr(c.firstName),
       lastName := form.lastName.GetOr(c.lastName),
       jobTitle := if form.jobTitle.Some? then form.jobTitle else c.jobTitle,
       department := if form.department.Some? then form.department else c.department,
       email := if form.email.Some? then form.email else c.email,
       phone := if form.phone.Some? then form.phone else c.phone,
       mobile := if form.mobile.Some? then form.mobile else c.mobile,
       addressLine1 := if form.addressLine1.Some? then form.addressLine1 else c.addressLine1,
       addressLine2 := if form.addressLine2.Some? then form.addressLine2 else c.addressLine2,
       city := if form.city.Some? then form.city else c.city,
       postalCode := if form.postalCode.Some? then form.postalCode else c.postalCode,
       country := if form.country.Some? then form.country else c.country,
       priority := form.priority.GetOr(c.priority),
       isPrimary := form.isPrimary.GetOr(c.isPrimary),
       lastContactDate := if form.lastContactDate.Some? then form.lastContactDate else c.lastContactDate,
       nextContactDate := if form.nextContactDate.Some? then form.nextContactDate else c.nextContactDate,
       lastContactNote := if form.lastContactNote.Some? then form.lastContactNote else c.lastContactNote)
  }

  /** Applying the same form twice is applying it once; the customer never changes. */
  lemma MergeIdempotent(c: Contact, form: ContactForm)
    ensures Merge(Merge(c, form), form) == Merge(c, form)
    ensures Merge(c, form).customerId == c.customerId
    ensures form.isPrimary.Some? ==> Merge(c, form).isPrimary == form.isPrimary.value
  {
  }

  /** What `clearOtherPrimaryContacts` leaves: the customer's other primaries lose the flag. */
  function ClearedPrimaries(rows: Contacts, customerId: int, excludeId: Option<int>): (r: Contacts)
    ensures r.Keys == rows.Keys
    ensures forall k | k in r && Other(k, excludeId) :: !PrimaryOf(r[k], customerId)
    ensures forall k | k in r :: r[k] == rows[k].(isPrimary := r[k].isPrimary)
    ensures forall k | k in r && (!Other(k, excludeId) || rows[k].customerId != Some(customerId)) :: r[k] == rows[k]
  {
    map k | k in rows :: if Other(k, excludeId) && PrimaryOf(rows[k], customerId) then rows[k].(isPrimary := false) else rows[k]
  }

  /** Clearing is idempotent, and once the customer has no other primary it changes nothing. */
  lemma ClearedPrimariesIdempotent(rows: Contacts, customerId: int, excludeId: Option<int>)
    ensures var once := ClearedPrimaries(rows, customerId, excludeId);
      ClearedPrimaries(once, customerId, excludeId) == once
  {
  }

  /**
   * The rows `clearOtherPrimaryContacts` visits: without an exclusion, the
   * primaries of the customer's ordered listing; with one, the result of
   * `findOtherPrimaryContactsForCustomer`.
   */
  function ClearTargets(rows: Contacts, customerId: int, excludeId: Option<int>): (r: set<int>)
    ensures forall k :: k in r <==> k in rows && Other(k, excludeId) && PrimaryOf(rows[k], customerId)
  {
    if excludeId.None? then ListedPrimaries(rows, customerId)
    else FindOtherPrimaryContactsForCustomer(rows, customerId, excludeId.value)
  }

  /** The primaries among `findByCustomerIdOrderByIsPrimaryDescLastNameAscFirstNameAsc`: every primary of the customer. */
  function ListedPrimaries(rows: Contacts, customerId: int): (r: set<int>)
    ensures forall k :: k in r <==> k in rows && PrimaryOf(rows[k], customerId)
  {
    var listed := FindByCustomerIdOrdered(rows, customerId);
    var s := set i | 0 <= i < |listed| && listed[i].1.isPrimary :: listed[i].0;
    assert forall k | k in rows && PrimaryOf(rows[k], customerId) :: k in s by {
      forall k | k in rows && PrimaryOf(rows[k], customerId) ensures k in s {
        var i :| 0 <= i < |listed| && listed[i].0 == k;
        assert listed[i].1 == rows[k];
      }
    }
    s
  }

  /** The rows once the contacts in `done` have been unflagged. */
  ghost function Unflagged(rows: Contacts, done: set<int>): Contacts
  {
    map k | k in rows :: if k in done then rows[k].(isPrimary := false) else rows[k]
  }

  /** One more visited contact: the rows so far with that contact unflagged. */
  lemma UnflagOneMore(rows: Contacts, targets: set<int>, todo: set<int>, k: int)
    requires k in todo && todo <= targets <= rows.Keys
    ensures var now := Unflagged(rows, targets - todo);
      now[k := now[k].(isPrimary := false)] == Unflagged(rows, targets - (todo - {k}))
  {
    assert targets - (todo - {k}) == (targets - todo) + {k};
  }

  /** Unflagging exactly the customer's other primaries is clearing them. */
  lemma UnflaggedTargets(rows: Contacts, customerId: int, excludeId: Option<int>, targets: set<int>)
    requires forall k :: k in targets <==> k in rows && Other(k, excludeId) && PrimaryOf(rows[k], customerId)
    ensures Unflagged(rows, targets) == ClearedPrimaries(rows, customerId, excludeId)
  {
    var a, b := Unflagged(rows, targets), ClearedPrimaries(rows, customerId, excludeId);
    assert a.Keys == b.Keys;
    forall k | k in a ensures a[k] == b[k] {
      if k in targets {
        assert Other(k, excludeId) && PrimaryOf(rows[k], customerId);
      }
    }
  }

  /** `clearOtherPrimaryContacts`: unflag and save each visited contact in turn. */
  method ClearOtherPrimaryContacts(contacts: Table, customerId: int, excludeId: Option<int>)
    modifies contacts
    ensures contacts.rows == ClearedPrimaries(old(contacts.rows), customerId, excludeId)
    ensures contacts.nextId == old(contacts.nextId)
  {
    ghost var before := contacts.rows;
    var targets := ClearTargets(contacts.rows, customerId, excludeId);
    UnflagEach(contacts, targets);
    UnflaggedTargets(before, customerId, excludeId, targets);
  }

  /** The `forEach` of `clearOtherPrimaryContacts`: one contact at a time, in no particular order. */
  method UnflagEach(contacts: Table, targets: set<int>)
    modifies contacts
    requires targets <= contacts.rows.Keys
    ensures contacts.rows == Unflagged(old(contacts.rows), targets)
    ensures contacts.nextId == old(contacts.nextId)
  {
    ghost var before := contacts.rows;
    var todo := targets;
    assert Unflagged(before, {}) == before;
    while todo != {}
      invariant todo <= targets <= before.Keys
      invariant contacts.rows == Unflagged(before, targets - todo)
      invariant contacts.nextId == old(contacts.nextId)
      decreases |todo|
    {
      ghost var some := SetUtil.Pick(todo);
      var k :| k in todo;
      UnflagOneMore(before, targets, todo, k);
      contacts.rows := contacts.rows[k := contacts.rows[k].(isPrimary := false)];
      todo := todo - {k};
    }
  }

  /** The code `create` uses: the submitted one, or the next CNT code when it is NULL or blank. */
  function AssignedCode(counters: map<(string, int), SequenceRepository.Sequence>, form: ContactForm, year: int): string
  {
    if IsNullOrBlank(form.code) then SequenceService.NextCode(counters, SequenceService.ContactType, year, SequenceService.ContactPrefix)
    else form.code.value
  }

  /**
   * The outcome of `create` once the code is assigned: the checks in the
   * order the service makes them, then the rows to store and the new contact.
   */
  function CreateOutcome(rows: Contacts, customers: CustomerRepository.Customers, form: ContactForm, code: string)
    : (r: Result<(Contacts, Contact), Error>)
    ensures r.Ok? <==>
      && ValidateUniqueFields(rows, form.(code := Some(code)), None).None?
      && ValidateBusinessRules(form.(code := Some(code))).None?
      && form.customerId.Some? && form.customerId.value in customers
      && form.isPrimary.Some?
      && ToEntity(form, code, form.customerId.value, form.isPrimary.value).Some?
    ensures r.Ok? ==>
      var c := r.value.1;
      && c == ToEntity(form, code, form.customerId.value, form.isPrimary.value).value
      && r.value.0 == if c.isPrimary then ClearedPrimaries(rows, form.customerId.value, None) else rows
  {
    var f := form.(code := Some(code));
    var unique := ValidateUniqueFields(rows, f, None);
    if unique.Some? then Err(unique.value)
    else
      var rules := ValidateBusinessRules(f);
      if rules.Some? then Err(rules.value)
      else if form.customerId.None? then Err(NullId)
      else if form.customerId.value !in customers then Err(NotFound)
      else if form.isPrimary.None? then Err(NullPointer)
      else
        var c := ToEntity(form, code, form.customerId.value, form.isPrimary.value);
        if c.None? then Err(NotNullViolation)
        else
          var cleared := if form.isPrimary.value then ClearedPrimaries(rows, form.customerId.value, None) else rows;
          Ok((cleared, c.value))
  }

  /** The errors of `create`, in the order the service raises them. */
  lemma CreateErrors(rows: Contacts, customers: CustomerRepository.Customers, form: ContactForm, code: string)
    ensures var f := form.(code := Some(code));
      var o := CreateOutcome(rows, customers, form, code);
      && (ValidateUniqueFields(rows, f, None).Some? ==> o == Err(ValidateUniqueFields(rows, f, None).value))
      && (ValidateUniqueFields(rows, f, None).None? && ValidateBusinessRules(f).Some? ==>
            o == Err(ValidateBusinessRules(f).value))
      && (ValidateUniqueFields(rows, f, None).None? && ValidateBusinessRules(f).None? && form.customerId.None? ==>
            o == Err(NullId))
      && (o.Err? && o.error == NotFound ==> form.customerId.Some? && form.customerId.value !in customers)
      && (o.Err? && o.error == NullPointer ==> form.isPrimary.None?)
  {
  }

  /** A contact created as primary is the only primary contact of its customer. */
  lemma CreatedPrimaryIsSole(rows: Contacts, customers: CustomerRepository.Customers, form: ContactForm, code: string, id: int)
    requires id !in rows
    requires CreateOutcome(rows, customers, form, code).Ok?
    requires form.isPrimary == Some(true)
    ensures var o := CreateOutcome(rows, customers, form, code).value;
      var after := o.0[id := o.1];
      && PrimaryOf(after[id], form.customerId.value)
      && forall k | k in after && k != id :: !PrimaryOf(after[k], form.customerId.value)
  {
  }

  /** Storing a created contact keeps at most one primary per customer. */
  lemma CreateKeepsAtMostOnePrimary(rows: Contacts, customers: CustomerRepository.Customers, form: ContactForm, code: string, id: int)
    requires id !in rows && AtMostOnePrimary(rows)
    requires CreateOutcome(rows, customers, form, code).Ok?
    ensures var o := CreateOutcome(rows, customers, form, code).value;
      AtMostOnePrimary(o.0[id := o.1])
  {
    var o := CreateOutcome(rows, customers, form, code).value;
    var after := o.0[id := o.1];
    forall i, j | i in after && j in after && i != j && after[i].isPrimary && after[j].isPrimary
      ensures after[i].customerId != after[j].customerId
    {
      if i != id && j != id {
        assert after[i].isPrimary ==> rows[i].isPrimary;
        assert after[j].isPrimary ==> rows[j].isPrimary;
      }
    }
  }

  /** The codes stay unique when the stored code was checked against every row. */
  lemma InsertKeepsCodesUnique(rows: Contacts, cleared: Contacts, id: int, c: Contact)
    requires CodesUnique(rows) && id !in rows
    requires cleared.Keys == rows.Keys && forall k | k in rows :: cleared[k].code == rows[k].code
    requires !ExistsByCode(rows, c.code)
    ensures CodesUnique(cleared[id := c])
  {
  }

  /** `create`: assign the code, then check and store the contact; an error rolls the counter back too. */
  method Create(contacts: Table, customers: CustomerRepository.Table, seqs: SequenceRepository.Table,
                form: ContactForm, year: int) returns (r: Result<int, Error>)
    modifies contacts, seqs
    requires contacts.Valid()
    ensures contacts.Valid()
    ensures var code := AssignedCode(old(seqs.counters), form, year);
      var o := CreateOutcome(old(contacts.rows), customers.rows, form, code);
      && (r.Err? <==> o.Err?)
      && (r.Err? ==> r.error == o.error)
      && (r.Ok? ==>
            && r.value == old(contacts.nextId)
            && contacts.rows == o.value.0[r.value := o.value.1]
            && contacts.nextId == old(contacts.nextId) + 1
            && seqs.counters == if IsNullOrBlank(form.code)
                                then SequenceService.Advance(old(seqs.counters), SequenceService.ContactType, year, SequenceService.ContactPrefix)
                                else old(seqs.counters))
    ensures r.Err? ==> contacts.rows == old(contacts.rows) && contacts.nextId == old(contacts.nextId) && seqs.counters == old(seqs.counters)
  {
    var saved := seqs.counters;
    var code: string;
    if IsNullOrBlank(form.code) {
      code := SequenceService.GenerateSequentialCode(seqs, SequenceService.ContactType, SequenceService.ContactPrefix, year);
    } else {
      code := form.code.value;
    }
    r := CreateWithCode(contacts, customers, form, code);
    if r.Err? {
      seqs.counters := saved;
    }
  }

  /** The checks and the insert of `create`, once the code is known. */
  method CreateWithCode(contacts: Table, customers: CustomerRepository.Table, form: ContactForm, code: string)
    returns (r: Result<int, Error>)
    modifies contacts
    requires contacts.Valid()
    ensures contacts.Valid()
    ensures var o := CreateOutcome(old(contacts.rows), customers.rows, form, code);
      && (r.Err? <==> o.Err?)
      && (r.Err? ==> r.error == o.error)
      && (r.Ok? ==>
            && r.value == old(contacts.nextId)
            && contacts.rows == o.value.0[r.value := o.value.1]
            && contacts.nextId == old(contacts.nextId) + 1)
    ensures r.Err? ==> contacts.rows == old(contacts.rows) && contacts.nextId == old(contacts.nextId)
  {
    ghost var outcome := CreateOutcome(contacts.rows, customers.rows, form, code);
    var f := form.(code := Some(code));
    var unique := ValidateUniqueFields(contacts.rows, f, None);
    if unique.Some? {
      return Err(unique.value);
    }
    var rules := ValidateBusinessRules(f);
    if rules.Some? {
      return Err(rules.value);
    }
    if form.customerId.None? {
      return Err(NullId);
    }
    var customerId := form.customerId.value;
    if customerId !in customers.rows {
      return Err(NotFound);
    }
    if form.isPrimary.None? {
      return Err(NullPointer);
    }
    var contact := ToEntity(form, code, customerId, form.isPrimary.value);
    if contact.None? {
      // the insert fails on a NOT NULL column
      return Err(NotNullViolation);
    }
    var before := contacts.rows;
    if form.isPrimary.value {
      ClearOtherPrimaryContacts(contacts, customerId, None);
    }
    assert outcome == Ok((contacts.rows, contact.value));
    assert !ExistsByCode(before, code);
    InsertKeepsCodesUnique(before, contacts.rows, contacts.nextId, contact.value);
    r := Ok(contacts.nextId);
    contacts.rows := contacts.rows[contacts.nextId := contact.value];
    contacts.nextId := contacts.nextId + 1;
  }

  /**
   * The outcome of `update`: the rows after the call, or the error. The
   * customer changes only when the form names another one; the other
   * primaries of the form's customer are cleared only when a non-primary
   * contact becomes primary.
   */
  function UpdateOutcome(rows: Contacts, customers: CustomerRepository.Customers, id: int, form: ContactForm)
    : (r: Result<Contacts, Error>)
    ensures id !in rows ==> r == Err(NotFound)
    ensures r.Ok? ==> id in rows && r.value.Keys == rows.Keys
    ensures r.Ok? ==> r.value[id] == Merge(rows[id], form).(customerId := form.customerId)
    ensures r.Ok? ==>
      && form.customerId.Some? && form.isPrimary.Some?
      && (form.customerId == rows[id].customerId || form.customerId.value in customers)
    ensures r.Ok? ==> forall k | k in rows && k != id ::
      r.value[k] == if form.isPrimary.value && !rows[id].isPrimary
                    then ClearedPrimaries(rows, form.customerId.value, Some(id))[k] else rows[k]
  {
    if id !in rows then Err(NotFound)
    else
      var existing := rows[id];
      var unique := ValidateUniqueFields(rows, form, Some(id));
      if unique.Some? then Err(unique.value)
      else
        var rules := ValidateBusinessRules(form);
        if rules.Some? then Err(rules.value)
        else if existing.customerId.None? then Err(NullPointer)
        else if form.customerId != existing.customerId && form.customerId.None? then Err(NullId)
        else if form.customerId != existing.customerId && form.customerId.value !in customers then Err(NotFound)
        else if form.isPrimary.None? then Err(NullPointer)
        else
          var cleared := if form.isPrimary.value && !existing.isPrimary
                         then ClearedPrimaries(rows, form.customerId.value, Some(id)) else rows;
          Ok(cleared[id := Merge(existing, form).(customerId := form.customerId)])
  }

  /** A non-primary contact that becomes primary without changing customer is its sole primary. */
  lemma UpdateToPrimaryIsSole(rows: Contacts, customers: CustomerRepository.Customers, id: int, form: ContactForm)
    requires UpdateOutcome(rows, customers, id, form).Ok?
    requires form.isPrimary == Some(true) && !rows[id].isPrimary
    ensures var after := UpdateOutcome(rows, customers, id, form).value;
      && PrimaryOf(after[id], form.customerId.value)
      && forall k | k in after && k != id :: !PrimaryOf(after[k], form.customerId.value)
  {
  }

  /**
   * The rule has a gap: a contact that is already primary and moves to a
   * customer that has a primary of its own clears nothing, leaving that
   * customer with two primaries.
   */
  lemma UpdateCanLeaveTwoPrimaries(c1: Contact, c2: Contact, customers: CustomerRepository.Customers, form: ContactForm)
    requires PrimaryOf(c1, 10) && PrimaryOf(c2, 20) && 20 in customers
    requires form == ContactForm(None, None, None, None, None, None, None, None, None, None, None, None, None, None,
                                 None, None, Some(20), None, Some(true), None, None, None)
    ensures var rows := map[1 := c1, 2 := c2];
      var r := UpdateOutcome(rows, customers, 1, form);
      && AtMostOnePrimary(rows)
      && r.Ok? && PrimaryOf(r.value[1], 20) && PrimaryOf(r.value[2], 20)
      && !AtMostOnePrimary(r.value)
  {
    var rows := map[1 := c1, 2 := c2];
    var f := form;
    assert ValidateUniqueFields(rows, f, Some(1)).None?;
    assert ValidateBusinessRules(f).None?;
    var r := UpdateOutcome(rows, customers, 1, form);
    assert r.value[2] == c2;
  }

  /** Updating keeps the codes unique when the new code is not held by another row. */
  lemma UpdateKeepsCodesUnique(rows: Contacts, customers: CustomerRepository.Customers, id: int, form: ContactForm)
    requires CodesUnique(rows)
    requires UpdateOutcome(rows, customers, id, form).Ok?
    ensures CodesUnique(UpdateOutcome(rows, customers, id, form).value)
  {
    var after := UpdateOutcome(rows, customers, id, form).value;
    forall i, j | i in after && j in after && i != j ensures after[i].code != after[j].code {
      if i == id {
        assert form.code.Some? ==> rows[j].code != form.code.value;
      } else if j == id {
        assert form.code.Some? ==> rows[i].code != form.code.value;
      }
    }
  }

  method Update(contacts: Table, customers: CustomerRepository.Table, id: int, form: ContactForm) returns (r: Result<(), Error>)
    modifies contacts
    requires contacts.Valid()
    ensures contacts.Valid()
    ensures var o := UpdateOutcome(old(contacts.rows), customers.rows, id, form);
      && (r.Err? <==> o.Err?)
      && (r.Err? ==> r.error == o.error && contacts.rows == old(contacts.rows))
      && (r.Ok? ==> contacts.rows == o.value)
    ensures contacts.nextId == old(contacts.nextId)
  {
    if id !in contacts.rows {
      return Err(NotFound);
    }
    var existing := contacts.rows[id];
    var unique := ValidateUniqueFields(contacts.rows, form, Some(id));
    if unique.Some? {
      return Err(unique.value);
    }
    var rules := ValidateBusinessRules(form);
    if rules.Some? {
      return Err(rules.value);
    }
    if form.customerId != existing.customerId {
      if form.customerId.None? {
        return Err(NullId);
      }
      if form.customerId.value !in customers.rows {
        return Err(NotFound);
      }
    }
    if form.isPrimary.None? {
      return Err(NullPointer);
    }
    ghost var before := contacts.rows;
    UpdateKeepsCodesUnique(before, customers.rows, id, form);
    if form.isPrimary.value && !existing.isPrimary {
      ClearOtherPrimaryContacts(contacts, form.customerId.value, Some(id));
    }
    contacts.rows := contacts.rows[id := Merge(existing, form).(customerId := form.customerId)];
    r := Ok(());
  }

  /**
   * `delete`: a primary contact may go only when it is its customer's last
   * contact (`countByCustomerId - 1 > 0` blocks it).
   */
  method Delete(contacts: Table, id: int) returns (r: Result<(), Error>)
    modifies contacts
    requires contacts.Valid()
    ensures contacts.Valid()
    ensures id !in old(contacts.rows) ==> r == Err(NotFound)
    ensures id in old(contacts.rows) ==>
      var c := old(contacts.rows)[id];
      (r == Err(PrimaryWithOthers) <==>
        c.isPrimary && exists k | k in old(contacts.rows) && k != id :: old(contacts.rows)[k].customerId == c.customerId)
    ensures r.Err? ==> r.error in {NotFound, PrimaryWithOthers} && contacts.rows == old(contacts.rows)
    ensures r.Ok? ==> contacts.rows == old(contacts.rows) - {id}
    ensures contacts.nextId == old(contacts.nextId)
  {
    if id !in contacts.rows {
      return Err(NotFound);
    }
    var contact := contacts.rows[id];
    if contact.isPrimary {
      var customerId := contact.customerId.value;
      CountByCustomerIdOfMember(contacts.rows, customerId, id);
      var otherContacts := CountByCustomerId(contacts.rows, customerId) - 1;
      if otherContacts > 0 {
        return Err(PrimaryWithOthers);
      }
    }
    contacts.rows := contacts.rows - {id};
    r := Ok(());
  }

  /** Removing a row keeps at most one primary per customer. */
  lemma DeleteKeepsAtMostOnePrimary(rows: Contacts, id: int)
    requires AtMostOnePrimary(rows)
    ensures AtMostOnePrimary(rows - {id})
  {
  }

  /** `updateLastContact`: the last contact is now, and the note is replaced, NULL included. */
  method UpdateLastContact(contacts: Table, id: int, note: Option<string>, now: int) returns (r: Result<(), Error>)
    modifies contacts
    requires contacts.Valid()
    ensures contacts.Valid()
    ensures r.Err? <==> id !in old(contacts.rows)
    ensures r.Err? ==> r.error == NotFound && contacts.rows == old(contacts.rows)
    ensures r.Ok? ==> contacts.rows == old(contacts.rows)[id := old(contacts.rows)[id].(lastContactDate := Some(now), lastContactNote := note)]
    ensures contacts.nextId == old(contacts.nextId)
  {
    if id !in contacts.rows {
      return Err(NotFound);
    }
    var c := contacts.rows[id];
    contacts.rows := contacts.rows[id := c.(lastContactDate := Some(now), lastContactNote := note)];
    r := Ok(());
  }

  /**
   * `scheduleNextContact`: the next contact date is always set, NULL
   * included; the note is replaced only when one is given. No date rule is
   * checked here.
   */
  method ScheduleNextContact(contacts: Table, id: int, nextContactDate: Option<int>, note: Option<string>)
    returns (r: Result<(), Error>)
    modifies contacts
    requires contacts.Valid()
    ensures contacts.Valid()
    ensures r.Err? <==> id !in old(contacts.rows)
    ensures r.Err? ==> r.error == NotFound && contacts.rows == old(contacts.rows)
    ensures r.Ok? ==> var c := old(contacts.rows)[id];
      contacts.rows == old(contacts.rows)[id := c.(nextContactDate := nextContactDate,
                                                   lastContactNote := if note.Some? then note else c.lastContactNote)]
    ensures contacts.nextId == old(contacts.nextId)
  {
    if id !in contacts.rows {
      return Err(NotFound);
    }
    var c := contacts.rows[id];
    var updated := c.(nextContactDate := nextContactDate);
    if note.Some? {
      updated := updated.(lastContactNote := note);
    }
    contacts.rows := contacts.rows[id := updated];
    r := Ok(());
  }

  /**
   * A scheduled date earlier than the last contact is stored by
   * `scheduleNextContact`, yet a form carrying the same two dates is refused
   * by the rules of `create` and `update`.
   */
  lemma ScheduleSkipsDateRule(c: Contact, next: int)
    requires c.lastContactDate.Some? && next < c.lastContactDate.value
    ensures var stored := c.(nextContactDate := Some(next));
      var form := ContactForm(None, None, None, None, None, None, None, None, None, None, None, None, None, None,
                              None, None, None, None, None, stored.lastContactDate, stored.nextContactDate, None);
      ValidateBusinessRules(form) == Some(NextBeforeLast)
  {
  }

  /**
   * `setPrimaryContact`: the contact becomes primary, no other contact of
   * its customer stays primary, and every other row is as it was.
   */
  method SetPrimaryContact(contacts: Table, id: int) returns (r: Result<(), Error>)
    modifies contacts
    requires contacts.Valid()
    ensures contacts.Valid()
    ensures r.Err? <==> id !in old(contacts.rows)
    ensures r.Err? ==> r.error == NotFound && contacts.rows == old(contacts.rows)
    ensures r.Ok? ==>
      var cid := old(contacts.rows)[id].customerId.value;
      && contacts.rows.Keys == old(contacts.rows).Keys
      && contacts.rows[id] == old(contacts.rows)[id].(isPrimary := true)
      && (forall k | k in contacts.rows && k != id :: !PrimaryOf(contacts.rows[k], cid))
      && (forall k | k in contacts.rows && old(contacts.rows)[k].customerId != Some(cid) ::
            contacts.rows[k] == old(contacts.rows)[k])
      && (forall k | k in contacts.rows && k != id ::
            contacts.rows[k] == old(contacts.rows)[k].(isPrimary := contacts.rows[k].isPrimary))
    ensures r.Ok? ==> AtMostOnePrimary(old(contacts.rows)) ==> AtMostOnePrimary(contacts.rows)
    ensures contacts.nextId == old(contacts.nextId)
  {
    if id !in contacts.rows {
      return Err(NotFound);
    }
    var contact := contacts.rows[id];
    var customerId := contact.customerId.value;
    ClearOtherPrimaryContacts(contacts, customerId, Some(id));
    SetPrimaryKeepsAtMostOne(old(contacts.rows), contacts.rows, id, customerId);
    SetPrimaryFrame(old(contacts.rows), contacts.rows, id, customerId);
    contacts.rows := contacts.rows[id := contact.(isPrimary := true)];
    r := Ok(());
  }

  /** Only flags change: the keys, the codes and the owners stay, and the other rows differ at most in their flag. */
  lemma SetPrimaryFrame(rows: Contacts, cleared: Contacts, id: int, customerId: int)
    requires id in rows && rows[id].customerId == Some(customerId)
    requires cleared == ClearedPrimaries(rows, customerId, Some(id))
    ensures var after := cleared[id := rows[id].(isPrimary := true)];
      && after.Keys == rows.Keys
      && (forall k | k in after :: after[k] == rows[k].(isPrimary := after[k].isPrimary))
      && (forall k | k in after && k != id :: !PrimaryOf(after[k], customerId))
      && (forall k | k in after && rows[k].customerId != Some(customerId) :: after[k] == rows[k])
      && (CodesUnique(rows) ==> CodesUnique(after))
  {
    var after := cleared[id := rows[id].(isPrimary := true)];
    if CodesUnique(rows) {
      forall i, j | i in after && j in after && i != j ensures after[i].code != after[j].code {
        assert after[i].code == rows[i].code && after[j].code == rows[j].code;
      }
    }
  }

  lemma SetPrimaryKeepsAtMostOne(rows: Contacts, cleared: Contacts, id: int, customerId: int)
    requires id in rows && rows[id].customerId == Some(customerId)
    requires cleared == ClearedPrimaries(rows, customerId, Some(id))
    ensures AtMostOnePrimary(rows) ==> AtMostOnePrimary(cleared[id := rows[id].(isPrimary := true)])
  {
    var after := cleared[id := rows[id].(isPrimary := true)];
    if AtMostOnePrimary(rows) {
      forall i, j | i in after && j in after && i != j && after[i].isPrimary && after[j].isPrimary
        ensures after[i].customerId != after[j].customerId
      {
        if i != id && j != id {
          assert rows[i].isPrimary && rows[j].isPrimary;
        }
      }
    }
  }
}
