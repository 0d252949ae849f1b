/** The contacts table and the queries the CRM runs over it. */
module ContactRepository {
  import opened Wrappers
  import opened Errors
  import opened Text
  import opened SetUtil
  import opened Sorting
  import opened ContactModel

  type Contacts = map<int, Contact>

  /** `code` is a unique column. */
  predicate CodesUnique(rows: Contacts)
  {
    forall i, j | i in rows && j in rows && i != j :: rows[i].code != rows[j].code
  }

  /** Contact `c` is flagged primary for customer `customerId`. */
  predicate PrimaryOf(c: Contact, customerId: int)
  {
    c.customerId == Some(customerId) && c.isPrimary
  }

  /** What the `Optional` of `findPrimaryContactByCustomerId` presumes: one primary per customer at most. */
  predicate AtMostOnePrimary(rows: Contacts)
  {
    forall i, j | i in rows && j in rows && i != j && rows[i].isPrimary && rows[j].isPrimary ::
      rows[i].customerId != rows[j].customerId
  }

  class Table {
    var rows: Contacts
    var nextId: int

    /** Identity ids, a NOT NULL `customer_id`, and the unique `code` column. */
    ghost predicate Valid()
      reads this
    {
      (forall k | k in rows :: k < nextId && rows[k].customerId.Some?) && CodesUnique(rows)
    }

    constructor ()
      ensures rows == map[] && Valid()
    {
      rows := map[];
      nextId := 1;
    }
  }

  predicate ExistsByCode(rows: Contacts, code: string)
  {
    exists k | k in rows :: rows[k].code == code
  }

  /** `existsByCodeAndIdNot`: some contact other than `id` holds `code`. */
  predicate ExistsByCodeAndIdNot(rows: Contacts, code: string, id: int)
  {
    exists k | k in rows && k != id :: rows[k].code == code
  }

  predicate ExistsByEmail(rows: Contacts, email: string)
  {
    exists k | k in rows :: rows[k].email == Some(email)
  }

  predicate ExistsByEmailAndIdNot(rows: Contacts, email: string, id: int)
  {
    exists k | k in rows && k != id :: rows[k].email == Some(email)
  }

  predicate ExistsByCustomerIdAndIsPrimaryTrue(rows: Contacts, customerId: int)
  {
    exists k | k in rows :: PrimaryOf(rows[k], customerId)
  }

  /** Excluding an id that holds no such code makes no difference. */
  lemma ExcludingAnotherCodeChangesNothing(rows: Contacts, code: string, id: int)
    requires id !in rows || rows[id].code != code
    ensures ExistsByCodeAndIdNot(rows, code, id) <==> ExistsByCode(rows, code)
  {
  }

  /** The contacts of customer `customerId`. */
  function OfCustomer(rows: Contacts, customerId: int): (r: set<int>)
    ensures forall k :: k in r <==> k in rows && rows[k].customerId == Some(customerId)
  {
    set k | k in rows && rows[k].customerId == Some(customerId)
  }

  /** `countByCustomerId`. */
  function CountByCustomerId(rows: Contacts, customerId: int): nat
  {
    |OfCustomer(rows, customerId)|
  }

  /** A contact of the customer makes the count positive; being its only one makes it 1. */
  lemma CountByCustomerIdOfMember(rows: Contacts, customerId: int, id: int)
    requires id in rows && rows[id].customerId == Some(customerId)
    ensures CountByCustomerId(rows, customerId) >= 1
    ensures CountByCustomerId(rows, customerId) == 1 <==>
      forall k | k in rows && k != id :: rows[k].customerId != Some(customerId)
  {
    var s := OfCustomer(rows, customerId);
    assert id in s;
    if exists k | k in rows && k != id :: rows[k].customerId == Some(customerId) {
      var k :| k in rows && k != id && rows[k].customerId == Some(customerId);
      assert {id, k} <= s;
      SubsetCard({id, k}, s);
    } else {
      assert s == {id};
    }
  }

  /** `findOtherPrimaryContactsForCustomer`: the customer's primaries other than `contactId`. */
  function FindOtherPrimaryContactsForCustomer(rows: Contacts, customerId: int, contactId: int): (r: set<int>)
    ensures forall k :: k in r <==> k in rows && k != contactId && PrimaryOf(rows[k], customerId)
  {
    set k | k in rows && k != contactId && PrimaryOf(rows[k], customerId)
  }

  /** `ORDER BY isPrimary DESC, lastName ASC, firstName ASC`. */
  predicate ContactLe(a: Contact, b: Contact)
  {
    if a.isPrimary != b.isPrimary then a.isPrimary
    else if a.lastName != b.lastName then LexLe(a.lastName, b.lastName)
    else LexLe(a.firstName, b.firstName)
  }

  function ContactEntryLe(x: (int, Contact), y: (int, Contact)): bool
  {
    ContactLe(x.1, y.1)
  }

  lemma ContactOrderIsPreorder()
    ensures Total(ContactEntryLe) && Transitive(ContactEntryLe)
  {
    forall a: (int, Contact), b: (int, Contact) ensures ContactEntryLe(a, b) || ContactEntryLe(b, a) {
      LexTotal(a.1.lastName, b.1.lastName);
      LexTotal(a.1.firstName, b.1.firstName);
    }
    forall a: (int, Contact), b: (int, Contact), c: (int, Contact) | ContactEntryLe(a, b) && ContactEntryLe(b, c)
      ensures ContactEntryLe(a, c)
    {
      LastNameStep(a.1, b.1, c.1);
    }
  }

  lemma LastNameStep(a: Contact, b: Contact, c: Contact)
    requires ContactLe(a, b) && ContactLe(b, c)
    ensures ContactLe(a, c)
  {
    LexTransitive(a.lastName, b.lastName, c.lastName);
    LexTransitive(a.firstName, b.firstName, c.firstName);
    if a.isPrimary == b.isPrimary == c.isPrimary && a.lastName != b.lastName && b.lastName != c.lastName
      && a.lastName == c.lastName
    {
      LexAntisymmetric(a.lastName, b.lastName);
    }
  }

  /**
   * `findByCustomerIdOrderByIsPrimaryDescLastNameAscFirstNameAsc`: the
   * customer's contacts, each once, in that order (ties by id).
   */
  function FindByCustomerIdOrdered(rows: Contacts, customerId: int): (r: seq<(int, Contact)>)
    ensures forall i | 0 <= i < |r| :: r[i].0 in rows && r[i].1 == rows[r[i].0] && r[i].1.customerId == Some(customerId)
    ensures forall k | k in rows && rows[k].customerId == Some(customerId) :: exists i | 0 <= i < |r| :: r[i].0 == k
    ensures forall i, j | 0 <= i < j < |r| :: r[i].0 != r[j].0
    ensures SortedBy(r, ContactEntryLe)
  {
    var ids := OfCustomer(rows, customerId);
    var asc := Ascending(ids);
    var entries := Entries(rows, asc);
    ContactOrderIsPreorder();
    SortSorted(entries, ContactEntryLe);
    SortedEntriesCover(rows, ids, asc, entries, SortBy(entries, ContactEntryLe));
    SortBy(entries, ContactEntryLe)
  }

  /** Primary contacts come first in a customer's listing. */
  lemma PrimaryContactsListedFirst(rows: Contacts, customerId: int, i: int, j: int)
    requires var r := FindByCustomerIdOrdered(rows, customerId); 0 <= i < j < |r| && r[j].1.isPrimary
    ensures FindByCustomerIdOrdered(rows, customerId)[i].1.isPrimary
  {
    var r := FindByCustomerIdOrdered(rows, customerId);
    assert ContactEntryLe(r[i], r[j]);
  }

  /**
   * `findPrimaryContactByCustomerId`: an `Optional`, so a second primary row
   * makes Spring Data fail with a non-unique result.
   */
  function FindPrimaryContactByCustomerId(rows: Contacts, customerId: int): (r: Result<Option<int>, Error>)
    ensures r == Ok(None) <==> forall k | k in rows :: !PrimaryOf(rows[k], customerId)
    ensures r.Ok? && r.value.Some? ==> var k := r.value.value;
      k in rows && PrimaryOf(rows[k], customerId)
      && forall j | j in rows && PrimaryOf(rows[j], customerId) :: j == k
    ensures r.Err? <==>
      exists i, j | i in rows && j in rows && i != j :: PrimaryOf(rows[i], customerId) && PrimaryOf(rows[j], customerId)
    ensures r.Err? ==> r.error == NonUniqueResult
  {
    var s := set k | k in rows && PrimaryOf(rows[k], customerId);
    assert forall k | k in rows && PrimaryOf(rows[k], customerId) :: k in s;
    if s == {} then
      Ok(None)
    else
      var m := Min(s);
      if s == {m} then
        Ok(Some(m))
      else
        var other := Min(s - {m});
        assert other != m && other in rows && m in rows;
        Err(NonUniqueResult)
  }

  /** With one primary per customer at most, the lookup never fails. */
  lemma PrimaryLookupSucceeds(rows: Contacts, customerId: int)
    requires AtMostOnePrimary(rows)
    ensures FindPrimaryContactByCustomerId(rows, customerId).Ok?
  {
  }

  /** The search columns of `findWithFilters`, `customer.companyName` among them. */
  function SearchColumns(c: Contact, companyName: Option<string>): seq<Option<string>>
  {
    [Some(c.firstName), Some(c.lastName), c.email, c.phone, c.mobile, c.jobTitle, c.department, companyName, Some(c.code)]
  }

  /** The company name of the contact's customer, through the inner join. */
  function CompanyName(c: Contact, companies: map<int, string>): Option<string>
  {
    if c.customerId.Some? && c.customerId.value in companies then Some(companies[c.customerId.value]) else None
  }

  /**
   * `findWithFilters` (without paging): each NULL filter keeps every row, a
   * NULL or empty search keeps every row.
   */
  function FindWithFilters(rows: Contacts, companies: map<int, string>, status: Option<ContactStatus>,
                           contactType: Option<ContactType>, customerId: Option<int>, priority: Option<ContactPriority>,
                           isPrimary: Option<bool>, search: Option<string>): (r: set<int>)
    ensures r <= rows.Keys
  {
    set k | k in rows
      && (status.None? || rows[k].status == status.value)
      && (contactType.None? || rows[k].contactType == contactType.value)
      && (customerId.None? || rows[k].customerId == customerId)
      && (priority.None? || rows[k].priority == priority.value)
      && (isPrimary.None? || rows[k].isPrimary == isPrimary.value)
      && MatchesSearch(search, SearchColumns(rows[k], CompanyName(rows[k], companies)))
  }

  /** Membership spelled out over the filters and the nine searched columns. */
  lemma FindWithFiltersExact(rows: Contacts, companies: map<int, string>, status: Option<ContactStatus>,
                             contactType: Option<ContactType>, customerId: Option<int>, priority: Option<ContactPriority>,
                             isPrimary: Option<bool>, search: Option<string>, k: int)
    requires k in rows
    ensures var c := rows[k];
      var s := search.GetOr("");
      k in FindWithFilters(rows, companies, status, contactType, customerId, priority, isPrimary, search) <==>
        && (status.None? || c.status == status.value)
        && (contactType.None? || c.contactType == contactType.value)
        && (customerId.None? || c.customerId == customerId)
        && (priority.None? || c.priority == priority.value)
        && (isPrimary.None? || c.isPrimary == isPrimary.value)
        && (search.None? || s == ""
            || ContainsIgnoreCase(Some(c.firstName), s) || ContainsIgnoreCase(Some(c.lastName), s)
            || ContainsIgnoreCase(c.email, s) || ContainsIgnoreCase(c.phone, s) || ContainsIgnoreCase(c.mobile, s)
            || ContainsIgnoreCase(c.jobTitle, s) || ContainsIgnoreCase(c.department, s)
            || ContainsIgnoreCase(CompanyName(c, companies), s) || ContainsIgnoreCase(Some(c.code), s))
  {
    var c := rows[k];
    var cols := SearchColumns(c, CompanyName(c, companies));
    assert cols[0] == Some(c.firstName) && cols[1] == Some(c.lastName) && cols[2] == c.email;
    assert cols[3] == c.phone && cols[4] == c.mobile && cols[5] == c.jobTitle && cols[6] == c.department;
    assert cols[7] == CompanyName(c, companies) && cols[8] == Some(c.code);
  }

  /** `findContactsDueForFollowup`: a follow-up date is set and is not after `date`. */
  function FindContactsDueForFollowup(rows: Contacts, date: int): (r: set<int>)
    ensures forall k :: k in r <==> k in rows && rows[k].nextContactDate.Some? && rows[k].nextContactDate.value <= date
  {
    set k | k in rows && rows[k].nextContactDate.Some? && rows[k].nextContactDate.value <= date
  }

  /** An overdue contact is always due for follow-up; the converse fails at the boundary. */
  lemma OverdueIsDue(rows: Contacts, k: int, now: int)
    requires k in rows
    ensures IsOverdue(rows[k], now) ==> k in FindContactsDueForFollowup(rows, now)
    ensures rows[k].nextContactDate == Some(now) ==> k in FindContactsDueForFollowup(rows, now) && !IsOverdue(rows[k], now)
  {
  }

  /** `findContactsWithoutRecentContact`: never contacted, or last contacted no later than `date`. */
  function FindContactsWithoutRecentContact(rows: Contacts, date: int): (r: set<int>)
    ensures forall k :: k in r <==> k in rows && (rows[k].lastContactDate.None? || rows[k].lastContactDate.value <= date)
  {
    set k | k in rows && (rows[k].lastContactDate.None? || rows[k].lastContactDate.value <= date)
  }

  /** `countStaleContacts` counts the same condition as the stale list. */
  function CountStaleContacts(rows: Contacts, date: int): (r: nat)
    ensures r == |FindContactsWithoutRecentContact(rows, date)|
    ensures r <= |rows|
  {
    var s := set k | k in rows && (rows[k].lastContactDate.None? || rows[k].lastContactDate.value <= date);
    assert s == FindContactsWithoutRecentContact(rows, date);
    SubsetCard(s, rows.Keys);
    |s|
  }

  /**
   * `countOverdueContacts`: follow-ups dated no later than `CURRENT_TIMESTAMP`
   * (`now`), a non-strict bound where the entity's `isOverdue` is strict.
   */
  function CountOverdueContacts(rows: Contacts, now: int): (r: nat)
    ensures r == |FindContactsDueForFollowup(rows, now)|
  {
    var s := set k | k in rows && rows[k].nextContactDate.Some? && rows[k].nextContactDate.value <= now;
    assert s == FindContactsDueForFollowup(rows, now);
    |s|
  }

  /** The overdue count is at least the number of contacts whose `isOverdue` holds. */
  lemma OverdueCountCoversIsOverdue(rows: Contacts, now: int)
    ensures |set k | k in rows && IsOverdue(rows[k], now)| <= CountOverdueContacts(rows, now)
  {
    var a := set k | k in rows && IsOverdue(rows[k], now);
    assert a <= FindContactsDueForFollowup(rows, now);
    SubsetCard(a, FindContactsDueForFollowup(rows, now));
  }
}
