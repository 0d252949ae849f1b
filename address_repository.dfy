/** The customer address entity. */
module AddressModel {
  import opened Wrappers

  datatype AddressType = Billing | Shipping | Both | OtherType

  /**
   * A row of `addresses`. `type`, `street1`, `zipCode`, `city`,
   * `countryCode`, `isDefault`, `active` and `customer_id` are NOT NULL.
   */
  datatype Address = Address(
    addressType: AddressType,
    labelText: Option<string>,
    street1: string,
    street2: Option<string>,
    zipCode: string,
    city: string,
    state: Option<string>,
    countryCode: string,
    isDefault: bool,
    active: bool,
    contactName: Option<string>,
    contactPhone: Option<string>,
    contactEmail: Option<string>,
    deliveryInstructions: Option<string>,
    customerId: int)
}

/** The addresses table, its finders and its bulk update of the default flag. */
module AddressRepository {
  import opened Wrappers
  import opened Errors
  import opened SetUtil
  import opened Sorting
  import opened AddressModel

  type Addresses = map<int, Address>

  /** Address `a` is a default address of customer `customerId`. */
  predicate DefaultOf(a: Address, customerId: int)
  {
    a.customerId == customerId && a.isDefault
  }

  /** What the `Optional` of `findByCustomerIdAndIsDefaultTrue` presumes. */
  predicate AtMostOneDefault(rows: Addresses)
  {
    forall i, j | i in rows && j in rows && i != j && rows[i].isDefault && rows[j].isDefault ::
      rows[i].customerId != rows[j].customerId
  }

  class Table {
    var rows: Addresses
    var nextId: int

    ghost predicate Valid()
      reads this
    {
      forall k | k in rows :: k < nextId
    }

    constructor ()
      ensures rows == map[] && Valid()
    {
      rows := map[];
      nextId := 1;
    }

    /**
     * `unsetAllDefaultForCustomer`: one bulk `UPDATE` clearing the default
     * flag on every address of the customer.
     */
    method UnsetAllDefaultForCustomer(customerId: int)
      modifies this
      ensures rows == UnsetAllDefault(old(rows), customerId)
      ensures nextId == old(nextId)
    {
      rows := UnsetAllDefault(rows, customerId);
    }

    /** `deleteByCustomerId`: every address of the customer goes. */
    method DeleteByCustomerId(customerId: int)
      modifies this
      ensures rows == WithoutCustomer(old(rows), customerId)
      ensures nextId == old(nextId)
    {
      rows := WithoutCustomer(rows, customerId);
    }
  }

  /** The table after `unsetAllDefaultForCustomer`. */
  function UnsetAllDefault(rows: Addresses, customerId: int): (r: Addresses)
    ensures r.Keys == rows.Keys
    ensures forall k | k in r && r[k].customerId == customerId :: !r[k].isDefault
    ensures forall k | k in r :: r[k] == rows[k].(isDefault := r[k].isDefault)
    ensures forall k | k in rows && rows[k].customerId != customerId :: r[k] == rows[k]
  {
    map k | k in rows :: if rows[k].customerId == customerId then rows[k].(isDefault := false) else rows[k]
  }

  /** Unsetting twice is unsetting once. */
  lemma UnsetAllDefaultIdempotent(rows: Addresses, customerId: int)
    ensures UnsetAllDefault(UnsetAllDefault(rows, customerId), customerId) == UnsetAllDefault(rows, customerId)
  {
  }

  /** Unsetting never creates a second default. */
  lemma UnsetKeepsAtMostOneDefault(rows: Addresses, customerId: int)
    requires AtMostOneDefault(rows)
    ensures AtMostOneDefault(UnsetAllDefault(rows, customerId))
  {
    var r := UnsetAllDefault(rows, customerId);
    forall i, j | i in r && j in r && i != j && r[i].isDefault && r[j].isDefault
      ensures r[i].customerId != r[j].customerId
    {
      assert rows[i].isDefault && rows[j].isDefault;
    }
  }

  /** The table after `deleteByCustomerId`. */
  function WithoutCustomer(rows: Addresses, customerId: int): (r: Addresses)
    ensures forall k :: k in r <==> k in rows && rows[k].customerId != customerId
    ensures forall k | k in r :: r[k] == rows[k]
  {
    map k | k in rows && rows[k].customerId != customerId :: rows[k]
  }

  /** `findByCustomerId`. */
  function FindByCustomerId(rows: Addresses, customerId: int): (r: set<int>)
    ensures forall k :: k in r <==> k in rows && rows[k].customerId == customerId
  {
    set k | k in rows && rows[k].customerId == customerId
  }

  /** After deleting by customer, that customer has no address left. */
  lemma DeletedCustomerHasNoAddress(rows: Addresses, customerId: int)
    ensures FindByCustomerId(WithoutCustomer(rows, customerId), customerId) == {}
  {
  }

  /** `ORDER BY isDefault DESC`: a default address sorts ahead of any other. */
  function AddressEntryLe(x: (int, Address), y: (int, Address)): bool
  {
    x.1.isDefault || !y.1.isDefault
  }

  lemma AddressOrderIsPreorder()
    ensures Total(AddressEntryLe) && Transitive(AddressEntryLe)
  {
  }

  /**
   * `findByCustomerIdOrderByIsDefaultDesc`: the customer's addresses, each
   * once, defaults first (the order among equals is not specified by the
   * query; here it is by id).
   */
  function FindByCustomerIdOrderByIsDefaultDesc(rows: Addresses, customerId: int): (r: seq<(int, Address)>)
    ensures forall i | 0 <= i < |r| :: r[i].0 in rows && r[i].1 == rows[r[i].0] && r[i].1.customerId == customerId
    ensures forall k | k in rows && rows[k].customerId == customerId :: exists i | 0 <= i < |r| :: r[i].0 == k
    ensures forall i, j | 0 <= i < j < |r| :: r[i].0 != r[j].0
    ensures SortedBy(r, AddressEntryLe)
  {
    var ids := FindByCustomerId(rows, customerId);
    var asc := Ascending(ids);
    var entries := Entries(rows, asc);
    AddressOrderIsPreorder();
    SortSorted(entries, AddressEntryLe);
    SortedEntriesCover(rows, ids, asc, entries, SortBy(entries, AddressEntryLe));
    SortBy(entries, AddressEntryLe)
  }

  /** In that listing no non-default address comes before a default one. */
  lemma DefaultsListedFirst(rows: Addresses, customerId: int)
    ensures var r := FindByCustomerIdOrderByIsDefaultDesc(rows, customerId);
      forall i, j | 0 <= i < j < |r| && r[j].1.isDefault :: r[i].1.isDefault
  {
    var r := FindByCustomerIdOrderByIsDefaultDesc(rows, customerId);
    forall i, j | 0 <= i < j < |r| && r[j].1.isDefault ensures r[i].1.isDefault {
      assert AddressEntryLe(r[i], r[j]);
    }
  }

  /**
   * `findByCustomerIdAndIsDefaultTrue`: an `Optional`, so a second default
   * makes Spring Data fail with a non-unique result.
   */
  function FindByCustomerIdAndIsDefaultTrue(rows: Addresses, customerId: int): (r: Result<Option<int>, Error>)
    ensures r == Ok(None) <==> forall k | k in rows :: !DefaultOf(rows[k], customerId)
    ensures r.Ok? && r.value.Some? ==> var k := r.value.value;
      k in rows && DefaultOf(rows[k], customerId)
      && forall j | j in rows && DefaultOf(rows[j], customerId) :: j == k
    ensures r.Err? <==>
      exists i, j | i in rows && j in rows && i != j :: DefaultOf(rows[i], customerId) && DefaultOf(rows[j], customerId)
    ensures r.Err? ==> r.error == NonUniqueResult
  {
    var s := set k | k in rows && DefaultOf(rows[k], customerId);
    assert forall k | k in rows && DefaultOf(rows[k], customerId) :: k in s;
    if s == {} then
      Ok(None)
    else
      var m := Min(s);
      if s == {m} then
        Ok(Some(m))
      else
        var other := Min(s - {m});
        assert other != m && other in rows && m in rows;
        Err(NonUniqueResult)
  }

  /** With one default per customer at most, the lookup never fails. */
  lemma DefaultLookupSucceeds(rows: Addresses, customerId: int)
    requires AtMostOneDefault(rows)
    ensures FindByCustomerIdAndIsDefaultTrue(rows, customerId).Ok?
  {
  }
}
