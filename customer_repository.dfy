/** The customers table: its unique columns and the existence checks the services run. */
module CustomerRepository {
  import opened Wrappers
  import opened CustomerModel

  type Customers = map<int, Customer>

  /**
   * The table's unique constraints on `code`, `email` and `siret`; NULLs
   * never clash with each other.
   */
  predicate UniqueColumns(rows: Customers)
  {
    forall i, j | i in rows && j in rows && i != j ::
      && rows[i].code != rows[j].code
      && (rows[i].email.Some? ==> rows[i].email != rows[j].email)
      && (rows[i].siret.Some? ==> rows[i].siret != rows[j].siret)
  }

  class Table {
    var rows: Customers
    var nextId: int

    ghost predicate Valid()
      reads this
    {
      (forall k | k in rows :: k < nextId) && UniqueColumns(rows)
    }

    constructor ()
      ensures rows == map[] && Valid()
    {
      rows := map[];
      nextId := 1;
    }

    /** `save` of a new customer that clashes with no row: it gets the next IDENTITY value. */
    method Insert(c: Customer) returns (id: int)
      modifies this
      requires Valid() && !ClashesOnInsert(rows, c)
      ensures Valid()
      ensures id == old(nextId) && rows == old(rows)[id := c] && nextId == old(nextId) + 1
    {
      id := nextId;
      InsertKeepsUnique(rows, id, c);
      rows := rows[id := c];
      nextId := id + 1;
    }
  }

  predicate ExistsByCode(rows: Customers, code: string)
  {
    exists k | k in rows :: rows[k].code == code
  }

  predicate ExistsByCodeAndIdNot(rows: Customers, code: string, id: int)
  {
    exists k | k in rows && k != id :: rows[k].code == code
  }

  predicate ExistsByEmail(rows: Customers, email: string)
  {
    exists k | k in rows :: rows[k].email == Some(email)
  }

  predicate ExistsByEmailAndIdNot(rows: Customers, email: string, id: int)
  {
    exists k | k in rows && k != id :: rows[k].email == Some(email)
  }

  /** Inserting `c` would break one of the unique constraints. */
  predicate ClashesOnInsert(rows: Customers, c: Customer)
  {
    exists k | k in rows ::
      || rows[k].code == c.code
      || (c.email.Some? && rows[k].email == c.email)
      || (c.siret.Some? && rows[k].siret == c.siret)
  }

  /** An insert that clashes with nothing keeps the constraints. */
  lemma InsertKeepsUnique(rows: Customers, id: int, c: Customer)
    requires UniqueColumns(rows) && id !in rows
    requires !ClashesOnInsert(rows, c)
    ensures UniqueColumns(rows[id := c])
  {
    var r := rows[id := c];
    forall i, j | i in r && j in r && i != j
      ensures && r[i].code != r[j].code
              && (r[i].email.Some? ==> r[i].email != r[j].email)
              && (r[i].siret.Some? ==> r[i].siret != r[j].siret)
    {
      if i == id {
        assert j in rows;
      } else if j == id {
        assert i in rows;
      }
    }
  }

  /** Only a clash on a non-NULL value counts: two customers without email or SIRET coexist. */
  lemma NullColumnsNeverClash(rows: Customers, c: Customer)
    requires c.email.None? && c.siret.None?
    ensures ClashesOnInsert(rows, c) <==> ExistsByCode(rows, c.code)
  {
  }
}
