/** The products table and its queries. */
module ProductRepository {
  import opened Wrappers
  import opened Text
  import opened ProductModel
  import opened CategoryModel

  type Products = map<int, Product>

  /** No two rows share a code (the `unique` column). */
  predicate CodesUnique(prods: Products)
  {
    forall i, j | i in prods && j in prods && i != j :: prods[i].code != prods[j].code
  }

  /** Every `category_id` names an existing category (the NOT NULL foreign key). */
  predicate CategoriesExist(prods: Products, cats: Categories)
  {
    forall k | k in prods :: prods[k].categoryId in cats
  }

  class Table {
    var rows: Products
    var nextId: int

    /** Ids come from an identity column; `unit_price` is NOT NULL; `code` is unique. */
    ghost predicate Valid()
      reads this
    {
      && (forall k | k in rows :: k < nextId && rows[k].unitPrice.Some?)
      && CodesUnique(rows)
    }

    constructor ()
      ensures rows == map[] && Valid()
    {
      rows := map[];
      nextId := 1;
    }
  }

  predicate ExistsByCode(prods: Products, code: string)
  {
    exists k | k in prods :: prods[k].code == code
  }

  predicate ExistsByCodeAndIdNot(prods: Products, code: string, id: int)
  {
    exists k | k in prods && k != id :: prods[k].code == code
  }

  predicate ExistsBySku(prods: Products, sku: string)
  {
    exists k | k in prods :: prods[k].sku == Some(sku)
  }

  predicate ExistsBySkuAndIdNot(prods: Products, sku: string, id: int)
  {
    exists k | k in prods && k != id :: prods[k].sku == Some(sku)
  }

  predicate ExistsByEan(prods: Products, ean: string)
  {
    exists k | k in prods :: prods[k].ean == Some(ean)
  }

  predicate ExistsByEanAndIdNot(prods: Products, ean: string, id: int)
  {
    exists k | k in prods && k != id :: prods[k].ean == Some(ean)
  }

  /** `p.unitPrice >= :minPrice`: a NULL price satisfies no bound. */
  predicate PriceAtLeast(p: Product, minPrice: Option<int>)
  {
    minPrice.None? || (p.unitPrice.Some? && p.unitPrice.value >= minPrice.value)
  }

  predicate PriceAtMost(p: Product, maxPrice: Option<int>)
  {
    maxPrice.None? || (p.unitPrice.Some? && p.unitPrice.value <= maxPrice.value)
  }

  /** `findWithFilters`: each NULL filter keeps every row; the price bounds are inclusive. */
  function FindWithFilters(prods: Products, active: Option<bool>, categoryId: Option<int>,
                           status: Option<ProductStatus>, productType: Option<ProductType>,
                           minPrice: Option<int>, maxPrice: Option<int>, search: Option<string>): (r: set<int>)
    ensures r <= prods.Keys
  {
    set k | k in prods
      && (active.None? || prods[k].active == active.value)
      && (categoryId.None? || prods[k].categoryId == categoryId.value)
      && (status.None? || prods[k].status == status.value)
      && (productType.None? || prods[k].productType == productType.value)
      && PriceAtLeast(prods[k], minPrice)
      && PriceAtMost(prods[k], maxPrice)
      && MatchesSearch(search, [Some(prods[k].name), Some(prods[k].code), prods[k].reference,
                                prods[k].sku, prods[k].ean, prods[k].description])
  }

  /** Membership spelled out: every filter, and the search over the six text columns. */
  lemma FindWithFiltersExact(prods: Products, active: Option<bool>, categoryId: Option<int>,
                             status: Option<ProductStatus>, productType: Option<ProductType>,
                             minPrice: Option<int>, maxPrice: Option<int>, search: Option<string>, k: int)
    requires k in prods
    ensures var p := prods[k];
      k in FindWithFilters(prods, active, categoryId, status, productType, minPrice, maxPrice, search) <==>
        && (active.None? || p.active == active.value)
        && (categoryId.None? || p.categoryId == categoryId.value)
        && (status.None? || p.status == status.value)
        && (productType.None? || p.productType == productType.value)
        && (minPrice.None? || (p.unitPrice.Some? && minPrice.value <= p.unitPrice.value))
        && (maxPrice.None? || (p.unitPrice.Some? && p.unitPrice.value <= maxPrice.value))
        && (search.None? || search.value == ""
            || ContainsIgnoreCase(Some(p.name), search.value) || ContainsIgnoreCase(Some(p.code), search.value)
            || ContainsIgnoreCase(p.reference, search.value) || ContainsIgnoreCase(p.sku, search.value)
            || ContainsIgnoreCase(p.ean, search.value) || ContainsIgnoreCase(p.description, search.value))
  {
    var p := prods[k];
    MatchesSearchOfSix(search, Some(p.name), Some(p.code), p.reference, p.sku, p.ean, p.description);
  }

  /** A price range with min > max selects nothing. */
  lemma EmptyPriceRange(prods: Products, active: Option<bool>, categoryId: Option<int>,
                        status: Option<ProductStatus>, productType: Option<ProductType>,
                        minPrice: int, maxPrice: int, search: Option<string>)
    requires minPrice > maxPrice
    ensures FindWithFilters(prods, active, categoryId, status, productType, Some(minPrice), Some(maxPrice), search) == {}
  {
    var r := FindWithFilters(prods, active, categoryId, status, productType, Some(minPrice), Some(maxPrice), search);
    forall k | k in prods ensures k !in r {
      FindWithFiltersExact(prods, active, categoryId, status, productType, Some(minPrice), Some(maxPrice), search, k);
    }
  }

  /** `findLowStockProducts` (and `countLowStockProducts`, the size of the same set). */
  function FindLowStockProducts(prods: Products): (r: set<int>)
    ensures forall k | k in prods :: k in r <==> prods[k].stockManaged && prods[k].stockQuantity <= prods[k].minStockLevel
    ensures r <= prods.Keys
  {
    set k | k in prods && prods[k].stockManaged && prods[k].stockQuantity <= prods[k].minStockLevel
  }

  /** `findOutOfStockProducts` (and its count): the query asks for a quantity of exactly 0. */
  function FindOutOfStockProducts(prods: Products): (r: set<int>)
    ensures forall k | k in prods :: k in r <==> prods[k].stockManaged && prods[k].stockQuantity == 0
    ensures r <= prods.Keys
  {
    set k | k in prods && prods[k].stockManaged && prods[k].stockQuantity == 0
  }

  /** The low-stock query selects exactly the rows whose entity says `isLowStock`. */
  lemma LowStockQueryMatchesEntity(prods: Products, k: int)
    requires k in prods
    ensures k in FindLowStockProducts(prods) <==> IsLowStock(prods[k])
  {
  }

  /** Every product the out-of-stock query returns is `isOutOfStock`. */
  lemma OutOfStockQueryWithinEntity(prods: Products)
    ensures forall k | k in FindOutOfStockProducts(prods) :: IsOutOfStock(prods[k])
  {
  }

  /**
   * The converse fails: a stock-managed product at -3 units is `isOutOfStock`
   * yet the query (`stockQuantity = 0`) leaves it out.
   */
  lemma NegativeStockNotListed(p: Product)
    requires p.stockManaged && p.stockQuantity == -3
    ensures IsOutOfStock(p)
    ensures 1 !in FindOutOfStockProducts(map[1 := p])
  {
  }
}
