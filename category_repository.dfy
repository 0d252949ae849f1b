/** The categories table and its queries, including the counts over products. */
module CategoryRepository {
  import opened Wrappers
  import opened Text
  import opened SetUtil
  import opened Sorting
  import opened CategoryModel
  import opened ProductModel

  class Table {
    var rows: Categories
    var nextId: int

    /** Ids come from an identity column; `parent_id` is a foreign key. */
    ghost predicate Valid()
      reads this
    {
      (forall k | k in rows :: k < nextId) && ParentsExist(rows)
    }

    constructor ()
      ensures rows == map[] && Valid()
    {
      rows := map[];
      nextId := 1;
    }
  }

  predicate ExistsByCode(cats: Categories, code: string)
  {
    exists k | k in cats :: cats[k].code == code
  }

  predicate ExistsByCodeAndIdNot(cats: Categories, code: string, id: int)
  {
    exists k | k in cats && k != id :: cats[k].code == code
  }

  predicate ExistsByParentId(cats: Categories, parentId: int)
  {
    exists k | k in cats :: cats[k].parentId == Some(parentId)
  }

  /** `existsByParentId` is the entity's `hasChildren`. */
  lemma ExistsByParentIdIsHasChildren(cats: Categories, id: int)
    ensures ExistsByParentId(cats, id) <==> HasChildren(cats, id)
  {
    if ExistsByParentId(cats, id) {
      var k :| k in cats && cats[k].parentId == Some(id);
      assert k in ChildIds(cats, id);
    }
    if HasChildren(cats, id) {
      var k := Pick(ChildIds(cats, id));
    }
  }

  /** The sort orders among the siblings under `parentId` (the roots when it is NULL). */
  function SiblingOrders(cats: Categories, parentId: Option<int>): set<int>
  {
    set k | k in cats && cats[k].parentId == parentId :: cats[k].sortOrder
  }

  /** `findMaxSortOrderByParent`: SQL `MAX`, NULL when there is no sibling. */
  function FindMaxSortOrderByParent(cats: Categories, parentId: Option<int>): (r: Option<int>)
    ensures r.None? <==> forall k | k in cats :: cats[k].parentId != parentId
    ensures r.Some? ==> exists k | k in cats && cats[k].parentId == parentId :: cats[k].sortOrder == r.value
    ensures r.Some? ==> forall k | k in cats && cats[k].parentId == parentId :: cats[k].sortOrder <= r.value
  {
    var orders := SiblingOrders(cats, parentId);
    if orders == {} then
      assert forall k | k in cats :: cats[k].parentId != parentId by {
        forall k | k in cats ensures cats[k].parentId != parentId {
          var o := cats[k].sortOrder;
          assert cats[k].parentId == parentId ==> o in orders;
        }
      }
      None
    else
      var m := Max(orders);
      assert forall k | k in cats && cats[k].parentId == parentId :: cats[k].sortOrder <= m by {
        forall k | k in cats && cats[k].parentId == parentId ensures cats[k].sortOrder <= m {
          assert cats[k].sortOrder in orders;
        }
      }
      Some(m)
  }

  /** `findWithFilters`: each NULL filter keeps every row. */
  function FindWithFilters(cats: Categories, active: Option<bool>, parentId: Option<int>, search: Option<string>): (r: set<int>)
    ensures r <= cats.Keys
  {
    set k | k in cats
      && (active.None? || cats[k].active == active.value)
      && (parentId.None? || cats[k].parentId == parentId)
      && MatchesSearch(search, [Some(cats[k].name), Some(cats[k].code), cats[k].description])
  }

  /** A row is returned exactly when it passes every supplied filter. */
  lemma FindWithFiltersExact(cats: Categories, active: Option<bool>, parentId: Option<int>, search: Option<string>, k: int)
    requires k in cats
    ensures k in FindWithFilters(cats, active, parentId, search) <==>
      && (active.Some? ==> cats[k].active == active.value)
      && (parentId.Some? ==> cats[k].parentId == parentId)
      && (search.Some? && search.value != "" ==>
            ContainsIgnoreCase(Some(cats[k].name), search.value)
            || ContainsIgnoreCase(Some(cats[k].code), search.value)
            || ContainsIgnoreCase(cats[k].description, search.value))
  {
    MatchesSearchOfThree(search, Some(cats[k].name), Some(cats[k].code), cats[k].description);
  }

  /** With no filter at all, every category is returned; a NULL parent filter does not mean "roots". */
  lemma NoFilterReturnsAll(cats: Categories)
    ensures FindWithFilters(cats, None, None, None) == cats.Keys
  {
    forall k | k in cats ensures k in FindWithFilters(cats, None, None, None) {
      FindWithFiltersExact(cats, None, None, None, k);
    }
  }

  /** `ORDER BY sortOrder ASC, name ASC`. */
  predicate CategoryLe(a: Category, b: Category)
  {
    a.sortOrder < b.sortOrder || (a.sortOrder == b.sortOrder && LexLe(a.name, b.name))
  }

  function EntryLe(x: (int, Category), y: (int, Category)): bool
  {
    CategoryLe(x.1, y.1)
  }

  lemma EntryOrderIsPreorder()
    ensures Total(EntryLe) && Transitive(EntryLe)
  {
    forall a: (int, Category), b: (int, Category) ensures EntryLe(a, b) || EntryLe(b, a) {
      LexTotal(a.1.name, b.1.name);
    }
    forall a: (int, Category), b: (int, Category), c: (int, Category) | EntryLe(a, b) && EntryLe(b, c)
      ensures EntryLe(a, c)
    {
      LexTransitive(a.1.name, b.1.name, c.1.name);
    }
  }

  /** The rows with the given ids, by sort order then name (ties by id). */
  function InDisplayOrder(cats: Categories, ids: set<int>): (r: seq<(int, Category)>)
    requires ids <= cats.Keys
    ensures forall i | 0 <= i < |r| :: r[i].0 in ids && r[i].1 == cats[r[i].0]
    ensures forall k | k in ids :: exists i | 0 <= i < |r| :: r[i].0 == k
    ensures forall i, j | 0 <= i < j < |r| :: r[i].0 != r[j].0
    ensures SortedBy(r, EntryLe)
  {
    var asc := Ascending(ids);
    var entries := Entries(cats, asc);
    EntryOrderIsPreorder();
    SortSorted(entries, EntryLe);
    SortedEntriesCover(cats, ids, asc, entries, SortBy(entries, EntryLe));
    SortBy(entries, EntryLe)
  }

  /** `findRootCategoriesWithChildren`: every root, in display order. */
  function FindRootCategories(cats: Categories): seq<(int, Category)>
  {
    InDisplayOrder(cats, set k | k in cats && IsRoot(cats[k]))
  }

  /** The `children` association of `id`, under its `@OrderBy`. */
  function Children(cats: Categories, id: int): (r: seq<(int, Category)>)
    ensures forall i | 0 <= i < |r| :: r[i].0 in cats && cats[r[i].0].parentId == Some(id)
  {
    InDisplayOrder(cats, ChildIds(cats, id))
  }

  /** `countProductsByCategory`: the products whose own category is `id`. */
  function CountProductsByCategory(prods: map<int, Product>, id: int): (r: nat)
    ensures r == 0 <==> forall k | k in prods :: prods[k].categoryId != id
    ensures r <= |prods|
  {
    var s := set k | k in prods && prods[k].categoryId == id;
    assert |s| > 0 <== exists k | k in prods :: prods[k].categoryId == id by {
      if exists k | k in prods :: prods[k].categoryId == id {
        var k :| k in prods && prods[k].categoryId == id;
        assert k in s;
      }
    }
    assert s <= prods.Keys;
    SubsetCard(s, prods.Keys);
    |s|
  }

  /** The products of `id` or of one of its direct children. */
  function ProductsIncludingChildren(cats: Categories, prods: map<int, Product>, id: int): set<int>
  {
    set k | k in prods && (prods[k].categoryId == id
      || (prods[k].categoryId in cats && cats[prods[k].categoryId].parentId == Some(id)))
  }

  /** `countProductsByCategoryIncludingChildren`. */
  function CountProductsByCategoryIncludingChildren(cats: Categories, prods: map<int, Product>, id: int): nat
  {
    |ProductsIncludingChildren(cats, prods, id)|
  }

  /** The wider count never falls below the direct one. */
  lemma IncludingChildrenCountsAtLeastDirect(cats: Categories, prods: map<int, Product>, id: int)
    ensures CountProductsByCategory(prods, id) <= CountProductsByCategoryIncludingChildren(cats, prods, id)
  {
    var direct := set k | k in prods && prods[k].categoryId == id;
    assert direct <= ProductsIncludingChildren(cats, prods, id);
    SubsetCard(direct, ProductsIncludingChildren(cats, prods, id));
  }

  /** Only one level is included: a product two levels down is not counted. */
  lemma GrandchildProductsNotCounted(cats: Categories, prods: map<int, Product>, id: int, k: int)
    requires k in prods
    requires var c := prods[k].categoryId;
      c in cats && c != id && cats[c].parentId.Some? && cats[c].parentId != Some(id)
    ensures k !in ProductsIncludingChildren(cats, prods, id)
  {
  }
}
