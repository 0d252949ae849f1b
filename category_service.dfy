/**
 * Category creation, update, deletion and the category tree. Each call is
 * one transaction: on an error every table it wrote is put back.
 */
module CategoryService {
  import opened Wrappers
  import opened Errors
  import opened Text
  import opened SetUtil
  import opened CategoryModel
  import opened CategoryRepository
  import ProductRepository
  import SequenceRepository
  import SequenceService

  /** The submitted category form; every field may be NULL. Image and icon are not part of this model. */
  datatype CategoryForm = CategoryForm(
    code: Option<string>,
    name: Option<string>,
    description: Option<string>,
    active: Option<bool>,
    sortOrder: Option<int>,
    parentId: Option<int>)

  /** `validateUniqueFields`: a non-null code must not be held by another category. */
  function ValidateUniqueFields(cats: Categories, code: Option<string>, excludeId: Option<int>): (r: Option<Error>)
    ensures r.None? <==> code.None? || forall k | k in cats && Other(k, excludeId) :: cats[k].code != code.value
    ensures r.Some? ==> r.value == DuplicateCode
  {
    if code.Some? && (if excludeId.None? then ExistsByCode(cats, code.value)
                      else ExistsByCodeAndIdNot(cats, code.value, excludeId.value)) then
      Some(DuplicateCode)
    else
      None
  }

  /** No two categories share a code (the `unique` column). */
  predicate CodesUnique(cats: Categories)
  {
    forall i, j | i in cats && j in cats && i != j :: cats[i].code != cats[j].code
  }

  /** The code `create` uses: the submitted one, or the next CAT code when it is NULL or blank. */
  function AssignedCode(counters: map<(string, int), SequenceRepository.Sequence>, form: CategoryForm, year: int): string
  {
    if IsNullOrBlank(form.code) then SequenceService.NextCode(counters, SequenceService.CategoryType, year, SequenceService.CategoryPrefix)
    else form.code.value
  }

  const MinInt32: int := -0x8000_0000
  const MaxInt32: int := 0x7FFF_FFFF

  /** Java `int` addition: the exact sum wrapped into the 32-bit two's-complement range. */
  function AddInt32(a: int, b: int): (r: int)
    ensures MinInt32 <= r <= MaxInt32
    ensures MinInt32 <= a + b <= MaxInt32 ==> r == a + b
    ensures (r - (a + b)) % 0x1_0000_0000 == 0
  {
    (a + b - MinInt32) % 0x1_0000_0000 + MinInt32
  }

  /**
   * The sort order `create` stores: the submitted one unless NULL or 0,
   * else the siblings' maximum + 10 in `Integer` arithmetic.
   */
  function InitialSortOrder(cats: Categories, form: CategoryForm): int
  {
    if form.sortOrder.None? || form.sortOrder.value == 0 then
      AddInt32(FindMaxSortOrderByParent(cats, form.parentId).GetOr(0), 10)
    else
      form.sortOrder.value
  }

  /** The sort orders of the siblings under `parentId` are `int` values at most `MaxInt32 - 10`. */
  predicate SiblingOrdersBelowTop(cats: Categories, parentId: Option<int>)
  {
    forall k | k in cats && cats[k].parentId == parentId :: MinInt32 <= cats[k].sortOrder <= MaxInt32 - 10
  }

  /**
   * A defaulted sort order is 10 past every sibling's and 10 past some
   * sibling's: the new category is listed after its siblings, as long as
   * no sibling is within 10 of the top of the `int` range. With no sibling
   * it is 10.
   */
  lemma DefaultSortOrderAfterSiblings(cats: Categories, form: CategoryForm)
    requires form.sortOrder.None? || form.sortOrder.value == 0
    requires SiblingOrdersBelowTop(cats, form.parentId)
    ensures forall k | k in cats && cats[k].parentId == form.parentId :: cats[k].sortOrder + 10 <= InitialSortOrder(cats, form)
    ensures (forall k | k in cats :: cats[k].parentId != form.parentId) ==> InitialSortOrder(cats, form) == 10
    ensures (exists k | k in cats :: cats[k].parentId == form.parentId) ==>
      exists k | k in cats && cats[k].parentId == form.parentId :: cats[k].sortOrder + 10 == InitialSortOrder(cats, form)
  {
  }

  /**
   * At the top of the range the sum wraps: under a sibling at `MaxInt32`
   * the new category gets -2147483639 and is listed before that sibling.
   */
  lemma DefaultSortOrderWrapsAtTop(cats: Categories, form: CategoryForm, k: int)
    requires form.sortOrder.None? || form.sortOrder.value == 0
    requires forall j | j in cats && cats[j].parentId == form.parentId :: cats[j].sortOrder <= MaxInt32
    requires k in cats && cats[k].parentId == form.parentId && cats[k].sortOrder == MaxInt32
    ensures InitialSortOrder(cats, form) == -2147483639
    ensures InitialSortOrder(cats, form) < cats[k].sortOrder
  {
    assert FindMaxSortOrderByParent(cats, form.parentId) == Some(MaxInt32);
  }

  /** A submitted non-zero sort order is kept. */
  lemma GivenSortOrderKept(cats: Categories, form: CategoryForm)
    requires form.sortOrder.Some? && form.sortOrder.value != 0
    ensures InitialSortOrder(cats, form) == form.sortOrder.value
  {
  }

  /**
   * `categoryMapper.toEntity` plus the parent and sort order set by
   * `create`. None when `name` or `active` is NULL: their columns are NOT NULL.
   */
  function ToEntity(form: CategoryForm, code: string, sortOrder: int): (r: Option<Category>)
    ensures r.Some? <==> form.name.Some? && form.active.Some?
    ensures r.Some? ==> r.value.code == code && r.value.sortOrder == sortOrder && r.value.parentId == form.parentId
    ensures r.Some? ==> r.value.name == form.name.value && r.value.description == form.description
  {
    if form.name.Some? && form.active.Some? then
      Some(Category(code, form.name.value, form.description, form.active.value, sortOrder, form.parentId))
    else
      None
  }

  /** `updateCategoryFromDTO`: non-null fields overwrite; the parent is not the mapper's business. */
  function Merge(c: Category, form: CategoryForm): (r: Category)
    ensures r.parentId == c.parentId
    ensures form.code.Some? ==> r.code == form.code.value
    ensures form.code.None? ==> r.code == c.code
  {
    c.(code := form.code.GetOr(c.code),
       name := form.name.GetOr(c.name),
       description := if form.description.Some? then form.description else c.description,
       active := form.active.GetOr(c.active),
       sortOrder := form.sortOrder.GetOr(c.sortOrder))
  }

  /** Merging the same form twice is merging it once; an all-NULL form (but the parent) changes nothing. */
  lemma MergeIdempotent(c: Category, form: CategoryForm)
    ensures Merge(Merge(c, form), form) == Merge(c, form)
    ensures Merge(c, form.(code := None, name := None, description := None, active := None, sortOrder := None)) == c
  {
  }

  method Create(cats: CategoryRepository.Table, seqs: SequenceRepository.Table, form: CategoryForm, year: int)
    returns (r: Result<int, Error>)
    modifies cats, seqs
    requires cats.Valid() && Acyclic(cats.rows) && CodesUnique(cats.rows)
    ensures cats.Valid() && Acyclic(cats.rows) && CodesUnique(cats.rows)
    ensures var code := AssignedCode(old(seqs.counters), form, year);
      var v := ValidateUniqueFields(old(cats.rows), Some(code), None);
      var parentMissing := form.parentId.Some? && form.parentId.value !in old(cats.rows);
      var entity := ToEntity(form, code, InitialSortOrder(old(cats.rows), form));
      && (v.Some? ==> r == Err(DuplicateCode))
      && (v.None? && parentMissing ==> r == Err(NotFound))
      && (v.None? && !parentMissing && entity.None? ==> r == Err(NotNullViolation))
      && (r.Ok? <==> v.None? && !parentMissing && entity.Some?)
      && (r.Ok? ==>
            && r.value == old(cats.nextId)
            && cats.rows == old(cats.rows)[r.value := entity.value]
            && cats.nextId == old(cats.nextId) + 1
            && seqs.counters == if IsNullOrBlank(form.code)
                                then SequenceService.Advance(old(seqs.counters), SequenceService.CategoryType, year, SequenceService.CategoryPrefix)
                                else old(seqs.counters))
    ensures r.Err? ==> cats.rows == old(cats.rows) && cats.nextId == old(cats.nextId) && seqs.counters == old(seqs.counters)
  {
    var saved := seqs.counters;
    var code: string;
    if IsNullOrBlank(form.code) {
      code := SequenceService.GenerateSequentialCode(seqs, SequenceService.CategoryType, SequenceService.CategoryPrefix, year);
    } else {
      code := form.code.value;
    }
    if ValidateUniqueFields(cats.rows, Some(code), None).Some? {
      seqs.counters := saved;
      return Err(DuplicateCode);
    }
    if form.parentId.Some? && form.parentId.value !in cats.rows {
      seqs.counters := saved;
      return Err(NotFound);
    }
    var category := ToEntity(form, code, InitialSortOrder(cats.rows, form));
    if category.None? {
      seqs.counters := saved;
      return Err(NotNullViolation);
    }
    var id := cats.nextId;
    InsertKeepsInvariants(cats.rows, cats.nextId, category.value);
    cats.rows := cats.rows[id := category.value];
    cats.nextId := cats.nextId + 1;
    r := Ok(id);
  }

  /** A new row at `nextId`, under an existing parent and with an unused code, keeps every invariant. */
  lemma InsertKeepsInvariants(cats: Categories, nextId: int, c: Category)
    requires forall k | k in cats :: k < nextId
    requires ParentsExist(cats) && Acyclic(cats) && CodesUnique(cats)
    requires c.parentId.None? || c.parentId.value in cats
    requires !ExistsByCode(cats, c.code)
    ensures var cats' := cats[nextId := c];
      && (forall k | k in cats' :: k < nextId + 1)
      && ParentsExist(cats') && Acyclic(cats') && CodesUnique(cats')
  {
    AttachKeepsAcyclic(cats, nextId, c);
  }

  /** The table `update` saves once its checks pass: merged fields, and the submitted parent. */
  function Updated(cats: Categories, id: int, form: CategoryForm): Categories
    requires id in cats
  {
    cats[id := Merge(cats[id], form).(parentId := form.parentId)]
  }

  /**
   * `update`. The only parent check is the direct self-parent; a parent
   * below the category is let through, and then `categoryMapper.toDTO`
   * recursing in `getFullPath`/`getLevel` overflows the stack and the
   * transaction is rolled back: that is what keeps the table acyclic.
   */
  method Update(cats: CategoryRepository.Table, id: int, form: CategoryForm) returns (r: Result<(), Error>)
    modifies cats
    requires cats.Valid() && Acyclic(cats.rows) && CodesUnique(cats.rows)
    ensures cats.Valid() && Acyclic(cats.rows) && CodesUnique(cats.rows)
    ensures id !in old(cats.rows) ==> r == Err(NotFound)
    ensures id in old(cats.rows) ==>
      var v := ValidateUniqueFields(old(cats.rows), form.code, Some(id));
      var p := form.parentId;
      && (v.Some? ==> r == Err(DuplicateCode))
      && (v.None? && p == Some(id) ==> r == Err(SelfParent))
      && (v.None? && p.Some? && p.value != id && p.value !in old(cats.rows) ==> r == Err(NotFound))
      && ((v.None? && p.Some? && p.value != id && p.value in old(cats.rows)
           && id in Ancestors(old(cats.rows), p.value).value) ==> r == Err(StackOverflow))
      && (r.Ok? <==> v.None? && (p.None? || (p.value != id && p.value in old(cats.rows)
                                            && id !in Ancestors(old(cats.rows), p.value).value)))
      && (r.Ok? ==> cats.rows == Updated(old(cats.rows), id, form))
    ensures r.Err? ==> cats.rows == old(cats.rows)
    ensures cats.nextId == old(cats.nextId)
  {
    if id !in cats.rows {
      return Err(NotFound);
    }
    if ValidateUniqueFields(cats.rows, form.code, Some(id)).Some? {
      return Err(DuplicateCode);
    }
    if form.parentId.Some? {
      if form.parentId.value == id {
        return Err(SelfParent);
      }
      if form.parentId.value !in cats.rows {
        return Err(NotFound);
      }
    }
    r := SaveUpdated(cats, id, form);
  }

  /**
   * The save of `update` once its explicit checks have passed: the rows are
   * written, and building the response then walks the new parent chain,
   * which overflows the stack on a cycle.
   */
  method SaveUpdated(cats: CategoryRepository.Table, id: int, form: CategoryForm) returns (r: Result<(), Error>)
    modifies cats
    requires cats.Valid() && Acyclic(cats.rows) && CodesUnique(cats.rows)
    requires id in cats.rows && ValidateUniqueFields(cats.rows, form.code, Some(id)).None?
    requires form.parentId.Some? ==> form.parentId.value != id && form.parentId.value in cats.rows
    ensures cats.Valid() && Acyclic(cats.rows) && CodesUnique(cats.rows)
    ensures r.Err? <==> form.parentId.Some? && id in Ancestors(old(cats.rows), form.parentId.value).value
    ensures r.Err? ==> r.error == StackOverflow && cats.rows == old(cats.rows)
    ensures r.Ok? ==> cats.rows == Updated(old(cats.rows), id, form)
    ensures cats.nextId == old(cats.nextId)
  {
    var rows := Updated(cats.rows, id, form);
    if form.parentId.Some? {
      ReparentCycle(cats.rows, rows, id, form.parentId.value);
    } else {
      RootLevelAndPath(rows, id);
    }
    if Ancestors(rows, id).None? {
      return Err(StackOverflow);
    }
    RepointKeepsAcyclic(cats.rows, rows, id);
    cats.rows := rows;
    r := Ok(());
  }

  /** `delete`: refused while the category has children or products; otherwise only that row goes. */
  method Delete(cats: CategoryRepository.Table, prods: ProductRepository.Table, id: int) returns (r: Result<(), Error>)
    modifies cats
    requires cats.Valid() && Acyclic(cats.rows) && CodesUnique(cats.rows)
    ensures cats.Valid() && Acyclic(cats.rows) && CodesUnique(cats.rows)
    ensures ProductRepository.CategoriesExist(prods.rows, old(cats.rows)) ==> ProductRepository.CategoriesExist(prods.rows, cats.rows)
    ensures id !in old(cats.rows) ==> r == Err(NotFound)
    ensures id in old(cats.rows) && HasChildren(old(cats.rows), id) ==> r == Err(HasSubcategories)
    ensures (id in old(cats.rows) && !HasChildren(old(cats.rows), id)
             && exists k | k in prods.rows :: prods.rows[k].categoryId == id) ==> r == Err(HasProducts)
    ensures r.Ok? <==> id in old(cats.rows) && !HasChildren(old(cats.rows), id)
                       && forall k | k in prods.rows :: prods.rows[k].categoryId != id
    ensures cats.rows == if r.Ok? then old(cats.rows) - {id} else old(cats.rows)
    ensures cats.nextId == old(cats.nextId)
  {
    if id !in cats.rows {
      return Err(NotFound);
    }
    ExistsByParentIdIsHasChildren(cats.rows, id);
    if ExistsByParentId(cats.rows, id) {
      return Err(HasSubcategories);
    }
    if CountProductsByCategory(prods.rows, id) > 0 {
      return Err(HasProducts);
    }
    DetachKeepsAcyclic(cats.rows, id);
    forall k | k in cats.rows - {id} && cats.rows[k].parentId.Some?
      ensures cats.rows[k].parentId.value in cats.rows - {id}
    {
      assert k !in ChildIds(cats.rows, id);
    }
    cats.rows := cats.rows - {id};
    r := Ok(());
  }

  /** A node of `findCategoryTree`: the DTO fields this model keeps. */
  datatype CategoryNode = CategoryNode(
    id: int,
    code: string,
    name: string,
    level: nat,
    fullPath: string,
    productCount: nat,
    children: seq<CategoryNode>)

  /** `n` carries the code, name, level and full path of the category it is the node of. */
  predicate Describes(cats: Categories, n: CategoryNode)
  {
    && n.id in cats && n.code == cats[n.id].code && n.name == cats[n.id].name
    && Level(cats, n.id) == Some(n.level) && FullPath(cats, n.id) == Some(n.fullPath)
  }

  /**
   * `enrichCategoryDTOWithChildren` for the category at the head of `chain`
   * (its parent chain): `toDTO`, the direct product count, then the children
   * in their `@OrderBy` order, each mapped the same way. A category without
   * children gets an empty list (the DTO leaves it NULL).
   */
  function Subtree(cats: Categories, prods: map<int, ProductModel.Product>, chain: seq<int>): (r: CategoryNode)
    requires IsChain(cats, chain)
    ensures r.id == chain[0] && Describes(cats, r)
    ensures r.productCount == CountProductsByCategory(prods, r.id)
    decreases cats.Keys - ChainSet(chain), 3
  {
    var id := chain[0];
    AncestorsCharacterised(cats, id, chain);
    CategoryNode(id, cats[id].code, cats[id].name, |chain| - 1, PathText(cats, chain),
                 CountProductsByCategory(prods, id), ChildNodes(cats, prods, chain))
  }

  /** The mapped children of the category at the head of `chain` (see `SubtreeChildren`). */
  function ChildNodes(cats: Categories, prods: map<int, ProductModel.Product>, chain: seq<int>): seq<CategoryNode>
    requires IsChain(cats, chain)
    decreases cats.Keys - ChainSet(chain), 2
  {
    TreesOf(cats, prods, chain, Children(cats, chain[0]))
  }

  /** The children of a node are the trees of the category's children, in `@OrderBy` order. */
  lemma SubtreeChildren(cats: Categories, prods: map<int, ProductModel.Product>, chain: seq<int>)
    requires IsChain(cats, chain)
    ensures var t := Subtree(cats, prods, chain);
      && |t.children| == |Children(cats, chain[0])|
      && forall i | 0 <= i < |t.children| ::
           t.children[i].id == Children(cats, chain[0])[i].0 && Describes(cats, t.children[i])
  {
    var t := Subtree(cats, prods, chain);
    assert t.children == ChildNodes(cats, prods, chain);
    assert ChildNodes(cats, prods, chain) == TreesOf(cats, prods, chain, Children(cats, chain[0]));
  }

  /** The trees of `kids`, children of the category at the head of `chain`, in the given order. */
  function TreesOf(cats: Categories, prods: map<int, ProductModel.Product>, chain: seq<int>, kids: seq<(int, Category)>)
    : (r: seq<CategoryNode>)
    requires IsChain(cats, chain)
    requires forall i | 0 <= i < |kids| :: kids[i].0 in cats && cats[kids[i].0].parentId == Some(chain[0])
    ensures |r| == |kids|
    ensures forall i | 0 <= i < |r| :: r[i].id == kids[i].0 && Describes(cats, r[i])
    decreases cats.Keys - ChainSet(chain), 1, |kids|
  {
    if kids == [] then []
    else [ChildTree(cats, prods, chain, kids[0].0)] + TreesOf(cats, prods, chain, kids[1..])
  }

  /** The tree of child `k` of the category at the head of `chain`. */
  function ChildTree(cats: Categories, prods: map<int, ProductModel.Product>, chain: seq<int>, k: int): (r: CategoryNode)
    requires IsChain(cats, chain)
    requires k in cats && cats[k].parentId == Some(chain[0])
    ensures r.id == k && Describes(cats, r)
    decreases cats.Keys - ChainSet(chain), 0
  {
    ExtendChain(cats, chain, k);
    Subtree(cats, prods, [k] + chain)
  }

  /** Each child sits one level below its parent, and its path is the parent's followed by its name. */
  lemma ChildLevelAndPath(cats: Categories, prods: map<int, ProductModel.Product>, chain: seq<int>, i: int)
    requires IsChain(cats, chain)
    requires 0 <= i < |Subtree(cats, prods, chain).children|
    ensures var t := Subtree(cats, prods, chain);
      && t.children[i].level == t.level + 1
      && t.children[i].fullPath == t.fullPath + " > " + t.children[i].name
  {
    var t := Subtree(cats, prods, chain);
    SubtreeChildren(cats, prods, chain);
    var k := t.children[i].id;
    assert k == Children(cats, chain[0])[i].0;
    ChildOfChain(cats, chain, k);
    AncestorsCharacterised(cats, chain[0], chain);
  }

  /** The tree of a root: level 0, its own name as path. */
  function RootTree(cats: Categories, prods: map<int, ProductModel.Product>, id: int): (r: CategoryNode)
    requires id in cats && IsRoot(cats[id])
    ensures r.id == id && Describes(cats, r)
    ensures r.level == 0 && r.fullPath == cats[id].name
  {
    RootLevelAndPath(cats, id);
    Subtree(cats, prods, [id])
  }

  /** The trees of the given roots, in the given order. */
  function RootTrees(cats: Categories, prods: map<int, ProductModel.Product>, roots: seq<(int, Category)>)
    : (r: seq<CategoryNode>)
    requires forall i | 0 <= i < |roots| :: roots[i].0 in cats && IsRoot(cats[roots[i].0])
    ensures |r| == |roots|
    ensures forall i | 0 <= i < |r| ::
      && r[i].id == roots[i].0
      && r[i].level == 0
      && r[i].fullPath == cats[r[i].id].name
  {
    if roots == [] then []
    else [RootTree(cats, prods, roots[0].0)] + RootTrees(cats, prods, roots[1..])
  }

  /** `findCategoryTree`: one tree per root, roots by sort order then name. */
  function FindCategoryTree(cats: Categories, prods: map<int, ProductModel.Product>): (r: seq<CategoryNode>)
    ensures |r| == |FindRootCategories(cats)|
    ensures forall i | 0 <= i < |r| ::
      && r[i].id == FindRootCategories(cats)[i].0
      && IsRoot(cats[r[i].id])
      && r[i].level == 0
      && r[i].fullPath == cats[r[i].id].name
  {
    RootTrees(cats, prods, FindRootCategories(cats))
  }

  /**
   * The explicit checks of `update` accept moving a root under its own
   * child: no code clash, the parent is not the category itself, and it
   * exists. The table that would result has a 2-cycle.
   */
  lemma ChecksAcceptTwoCycle()
    ensures var cats := map[1 := Category("CAT-2024-0001", "A", None, true, 10, None),
                            2 := Category("CAT-2024-0002", "B", None, true, 10, Some(1))];
      var form := CategoryForm(None, None, None, None, None, Some(2));
      && Acyclic(cats)
      && ValidateUniqueFields(cats, form.code, Some(1)).None?
      && form.parentId != Some(1) && form.parentId.value in cats
      && !Acyclic(Updated(cats, 1, form))
  {
    var cats := map[1 := Category("CAT-2024-0001", "A", None, true, 10, None),
                    2 := Category("CAT-2024-0002", "B", None, true, 10, Some(1))];
    var form := CategoryForm(None, None, None, None, None, Some(2));
    RootLevelAndPath(cats, 1);
    ParentStep(cats, 2);
    ReparentCycle(cats, Updated(cats, 1, form), 1, 2);
  }
}
