/**
 * Product creation, update, deletion and stock update. Each call is one
 * transaction: on an error every table it wrote is put back as it was.
 */
module ProductService {
  import opened Wrappers
  import opened Errors
  import opened Text
  import opened ProductModel
  import opened ProductRepository
  import CategoryModel
  import CategoryRepository
  import SequenceRepository
  import SequenceService

  /**
   * The submitted product form; every field may be NULL. `costPrice`,
   * units, dimensions and URLs, all nullable columns, are not part of this model.
   */
  datatype ProductForm = ProductForm(
    code: Option<string>,
    name: Option<string>,
    description: Option<string>,
    active: Option<bool>,
    productType: Option<ProductType>,
    status: Option<ProductStatus>,
    reference: Option<string>,
    sku: Option<string>,
    ean: Option<string>,
    unitPrice: Option<int>,
    vatRate: Option<int>,
    stockManaged: Option<bool>,
    stockQuantity: Option<int>,
    minStockLevel: Option<int>,
    maxStockLevel: Option<int>,
    categoryId: Option<int>)

  /**
   * `validateUniqueFields`: the code when non-null, the SKU and the EAN when
   * non-blank, must not be held by another product; the code is tested first.
   */
  function ValidateUniqueFields(prods: Products, form: ProductForm, excludeId: Option<int>): (r: Option<Error>)
    ensures r.None? <==>
      && (form.code.Some? ==> forall k | k in prods && Other(k, excludeId) :: prods[k].code != form.code.value)
      && (!IsNullOrBlank(form.sku) ==> forall k | k in prods && Other(k, excludeId) :: prods[k].sku != form.sku)
      && (!IsNullOrBlank(form.ean) ==> forall k | k in prods && Other(k, excludeId) :: prods[k].ean != form.ean)
    ensures r == Some(DuplicateCode) <==>
      form.code.Some? && exists k | k in prods && Other(k, excludeId) :: prods[k].code == form.code.value
    ensures r == Some(DuplicateSku) ==>
      !IsNullOrBlank(form.sku) && exists k | k in prods && Other(k, excludeId) :: prods[k].sku == form.sku
    ensures r == Some(DuplicateEan) ==>
      !IsNullOrBlank(form.ean) && exists k | k in prods && Other(k, excludeId) :: prods[k].ean == form.ean
    ensures r.None? || r == Some(DuplicateCode) || r == Some(DuplicateSku) || r == Some(DuplicateEan)
  {
    if form.code.Some? && (if excludeId.None? then ExistsByCode(prods, form.code.value)
                           else ExistsByCodeAndIdNot(prods, form.code.value, excludeId.value)) then
      Some(DuplicateCode)
    else if !IsNullOrBlank(form.sku) && (if excludeId.None? then ExistsBySku(prods, form.sku.value)
                                         else ExistsBySkuAndIdNot(prods, form.sku.value, excludeId.value)) then
      Some(DuplicateSku)
    else if !IsNullOrBlank(form.ean) && (if excludeId.None? then ExistsByEan(prods, form.ean.value)
                                         else ExistsByEanAndIdNot(prods, form.ean.value, excludeId.value)) then
      Some(DuplicateEan)
    else
      None
  }

  /** A blank SKU or EAN is never looked up, so it cannot clash. */
  lemma BlankSkuAndEanIgnored(prods: Products, form: ProductForm, excludeId: Option<int>)
    requires IsNullOrBlank(form.sku) && IsNullOrBlank(form.ean)
    ensures ValidateUniqueFields(prods, form, excludeId) == ValidateUniqueFields(prods, form.(sku := None, ean := None), excludeId)
    ensures ValidateUniqueFields(prods, form, excludeId).None? <==>
      (form.code.None? || forall k | k in prods && Other(k, excludeId) :: prods[k].code != form.code.value)
  {
  }

  /**
   * `productMapper.toEntity`: every field is copied, NULLs included. None
   * when a NOT NULL column would receive NULL, which makes `save` fail.
   */
  function ToEntity(form: ProductForm, code: string, categoryId: int): (r: Option<Product>)
    ensures r.Some? <==>
      && form.name.Some? && form.active.Some? && form.productType.Some? && form.status.Some?
      && form.unitPrice.Some? && form.stockManaged.Some? && form.stockQuantity.Some? && form.minStockLevel.Some? && form.maxStockLevel.Some?
    ensures r.Some? ==> r.value.code == code && r.value.categoryId == categoryId && r.value.unitPrice.Some?
    ensures r.Some? ==> Merge(r.value, form.(code := Some(code))) == r.value
  {
    if && form.name.Some? && form.active.Some? && form.productType.Some? && form.status.Some?
       && form.unitPrice.Some? && form.stockManaged.Some? && form.stockQuantity.Some? && form.minStockLevel.Some? && form.maxStockLevel.Some?
    then
      Some(Product.Product(code, form.name.value, form.description, form.active.value, form.productType.value,
                   form.status.value, form.reference, form.sku, form.ean, form.unitPrice, form.vatRate,
                   form.stockManaged.value, form.stockQuantity.value, form.minStockLevel.value,
                   form.maxStockLevel.value, categoryId))
    else
      None
  }

  /** `updateProductFromDTO`: the non-null fields of the form overwrite the entity; the category is not touched. */
  function Merge(p: Product, form: ProductForm): Product
  {
    p.(code := form.code.GetOr(p.code),
       name := form.name.GetOr(p.name),
       description := if form.description.Some? then form.description else p.description,
       active := form.active.GetOr(p.active),
       productType := form.productType.GetOr(p.productType),
       status := form.status.GetOr(p.status),
       reference := if form.reference.Some? then form.reference else p.reference,
       sku := if form.sku.Some? then form.sku else p.sku,
       ean := if form.ean.Some? then form.ean else p.ean,
       unitPrice := if form.unitPrice.Some? then form.unitPrice else p.unitPrice,
       vatRate := if form.vatRate.Some? then form.vatRate else p.vatRate,
       stockManaged := form.stockManaged.GetOr(p.stockManaged),
       stockQuantity := form.stockQuantity.GetOr(p.stockQuantity),
       minStockLevel := form.minStockLevel.GetOr(p.minStockLevel),
       maxStockLevel := form.maxStockLevel.GetOr(p.maxStockLevel))
  }

  /** Applying the same form twice is applying it once; an all-NULL form changes nothing. */
  lemma MergeIdempotent(p: Product, form: ProductForm)
    ensures Merge(Merge(p, form), form) == Merge(p, form)
    ensures Merge(p, ProductForm(None, None, None, None, None, None, None, None, None, None, None, None, None, None, None, None)) == p
    ensures Merge(p, form).categoryId == p.categoryId
    ensures p.unitPrice.Some? ==> Merge(p, form).unitPrice.Some?
  {
  }

  /** The code `create` uses: the submitted one, or the next PRD code when it is NULL or blank. */
  function AssignedCode(counters: map<(string, int), SequenceRepository.Sequence>, form: ProductForm, year: int): string
  {
    if IsNullOrBlank(form.code) then SequenceService.NextCode(counters, SequenceService.ProductType, year, SequenceService.ProductPrefix)
    else form.code.value
  }

  /** A fresh row keeps the codes unique when its code is not taken, and the categories existing when its own does. */
  lemma InsertKeepsInvariants(prods: Products, cats: CategoryModel.Categories, id: int, p: Product)
    requires CodesUnique(prods) && id !in prods
    requires !ExistsByCode(prods, p.code)
    ensures CodesUnique(prods[id := p])
    ensures CategoriesExist(prods, cats) && p.categoryId in cats ==> CategoriesExist(prods[id := p], cats)
  {
  }

  /**
   * `create`: the code is generated when NULL or blank, then the checks and
   * the insert of `CreateWithCode`; a failure rolls the counter back.
   */
  method Create(prods: Table, cats: CategoryRepository.Table, seqs: SequenceRepository.Table, form: ProductForm, year: int)
    returns (r: Result<int, Error>)
    modifies prods, seqs
    requires prods.Valid()
    ensures prods.Valid()
    ensures CategoriesExist(old(prods.rows), cats.rows) ==> CategoriesExist(prods.rows, cats.rows)
    ensures var code := AssignedCode(old(seqs.counters), form, year);
      var v := ValidateUniqueFields(old(prods.rows), form.(code := Some(code)), None);
      && (v.Some? ==> r == Err(v.value))
      && (v.None? && form.categoryId.None? ==> r == Err(NullId))
      && (v.None? && form.categoryId.Some? && form.categoryId.value !in cats.rows ==> r == Err(NotFound))
      && (r.Ok? <==> v.None? && form.categoryId.Some? && form.categoryId.value in cats.rows
                     && ToEntity(form, code, form.categoryId.value).Some?)
      && (r.Ok? ==>
            && r.value == old(prods.nextId)
            && prods.rows == old(prods.rows)[r.value := ToEntity(form, code, form.categoryId.value).value]
            && prods.nextId == old(prods.nextId) + 1
            && seqs.counters == if IsNullOrBlank(form.code)
                                then SequenceService.Advance(old(seqs.counters), SequenceService.ProductType, year, SequenceService.ProductPrefix)
                                else old(seqs.counters))
    ensures r.Err? && r.error != NullId && r.error != NotFound ==> r.error in {DuplicateCode, DuplicateSku, DuplicateEan, NotNullViolation}
    ensures r.Err? ==> prods.rows == old(prods.rows) && prods.nextId == old(prods.nextId) && seqs.counters == old(seqs.counters)
  {
    var saved := seqs.counters;
    var code: string;
    if IsNullOrBlank(form.code) {
      code := SequenceService.GenerateSequentialCode(seqs, SequenceService.ProductType, SequenceService.ProductPrefix, year);
    } else {
      code := form.code.value;
    }
    r := CreateWithCode(prods, cats, form, code);
    if r.Err? {
      seqs.counters := saved;
    }
  }

  /** The checks and the insert of `create`, once the code is known. */
  method CreateWithCode(prods: Table, cats: CategoryRepository.Table, form: ProductForm, code: string)
    returns (r: Result<int, Error>)
    modifies prods
    requires prods.Valid()
    ensures prods.Valid()
    ensures CategoriesExist(old(prods.rows), cats.rows) ==> CategoriesExist(prods.rows, cats.rows)
    ensures var v := ValidateUniqueFields(old(prods.rows), form.(code := Some(code)), None);
      && (v.Some? ==> r == Err(v.value))
      && (v.None? && form.categoryId.None? ==> r == Err(NullId))
      && (v.None? && form.categoryId.Some? && form.categoryId.value !in cats.rows ==> r == Err(NotFound))
      && (r.Ok? <==> v.None? && form.categoryId.Some? && form.categoryId.value in cats.rows
                     && ToEntity(form, code, form.categoryId.value).Some?)
      && (r.Ok? ==>
            && r.value == old(prods.nextId)
            && prods.rows == old(prods.rows)[r.value := ToEntity(form, code, form.categoryId.value).value]
            && prods.nextId == old(prods.nextId) + 1)
    ensures r.Err? && r.error != NullId && r.error != NotFound ==> r.error in {DuplicateCode, DuplicateSku, DuplicateEan, NotNullViolation}
    ensures r.Err? ==> prods.rows == old(prods.rows) && prods.nextId == old(prods.nextId)
  {
    var v := ValidateUniqueFields(prods.rows, form.(code := Some(code)), None);
    if v.Some? {
      return Err(v.value);
    }
    if form.categoryId.None? {
      return Err(NullId);
    }
    var categoryId := form.categoryId.value;
    if categoryId !in cats.rows {
      return Err(NotFound);
    }
    var product := ToEntity(form, code, categoryId);
    if product.None? {
      return Err(NotNullViolation);
    }
    assert !ExistsByCode(prods.rows, code);
    InsertKeepsInvariants(prods.rows, cats.rows, prods.nextId, product.value);
    r := Ok(prods.nextId);
    prods.rows := prods.rows[prods.nextId := product.value];
    prods.nextId := prods.nextId + 1;
  }

  /** Changing one row keeps the codes unique when its new code is not held by another row. */
  lemma ReplaceKeepsCodesUnique(prods: Products, id: int, p: Product)
    requires CodesUnique(prods) && id in prods
    requires !ExistsByCodeAndIdNot(prods, p.code, id)
    ensures CodesUnique(prods[id := p])
  {
  }

  method Update(prods: Table, cats: CategoryRepository.Table, id: int, form: ProductForm) returns (r: Result<(), Error>)
    modifies prods
    requires prods.Valid()
    ensures prods.Valid()
    ensures CategoriesExist(old(prods.rows), cats.rows) ==> CategoriesExist(prods.rows, cats.rows)
    ensures id !in old(prods.rows) ==> r == Err(NotFound)
    ensures id in old(prods.rows) ==>
      var existing := old(prods.rows)[id];
      var v := ValidateUniqueFields(old(prods.rows), form, Some(id));
      && (v.Some? ==> r == Err(v.value))
      && (v.None? && form.categoryId.None? ==> r == Err(NullId))
      && ((v.None? && form.categoryId.Some? && form.categoryId.value != existing.categoryId
            && form.categoryId.value !in cats.rows) ==> r == Err(NotFound))
      && (r.Ok? <==> v.None? && form.categoryId.Some?
                     && (form.categoryId.value == existing.categoryId || form.categoryId.value in cats.rows))
      && (r.Ok? ==> prods.rows == old(prods.rows)[id := Merge(existing, form).(categoryId := form.categoryId.value)])
    ensures r.Err? ==> prods.rows == old(prods.rows)
    ensures prods.nextId == old(prods.nextId)
  {
    if id !in prods.rows {
      return Err(NotFound);
    }
    var existing := prods.rows[id];
    var v := ValidateUniqueFields(prods.rows, form, Some(id));
    if v.Some? {
      return Err(v.value);
    }
    var categoryId := existing.categoryId;
    if form.categoryId != Some(existing.categoryId) {
      if form.categoryId.None? {
        return Err(NullId);
      }
      if form.categoryId.value !in cats.rows {
        return Err(NotFound);
      }
      categoryId := form.categoryId.value;
    }
    // the mapper never touches the category
    var product := Merge(existing, form).(categoryId := categoryId);
    MergeIdempotent(existing, form);
    assert !ExistsByCodeAndIdNot(prods.rows, product.code, id);
    ReplaceKeepsCodesUnique(prods.rows, id, product);
    prods.rows := prods.rows[id := product];
    r := Ok(());
  }

  /** `delete`: the product goes, whatever refers to it. */
  method Delete(prods: Table, id: int) returns (r: Result<(), Error>)
    modifies prods
    requires prods.Valid()
    ensures prods.Valid()
    ensures r.Err? <==> id !in old(prods.rows)
    ensures r.Err? ==> r.error == NotFound
    ensures prods.rows == old(prods.rows) - {id}
    ensures prods.nextId == old(prods.nextId)
  {
    if id !in prods.rows {
      return Err(NotFound);
    }
    prods.rows := prods.rows - {id};
    r := Ok(());
  }

  /**
   * `updateStock`. A NULL quantity is stored in memory, and building the
   * response unboxes it in `isLowStock`: the call fails and rolls back.
   */
  method UpdateStock(prods: Table, id: int, newQuantity: Option<int>) returns (r: Result<(), Error>)
    modifies prods
    requires prods.Valid()
    ensures prods.Valid()
    ensures id !in old(prods.rows) ==> r == Err(NotFound)
    ensures id in old(prods.rows) && !old(prods.rows)[id].stockManaged ==> r == Err(StockNotManaged)
    ensures id in old(prods.rows) && old(prods.rows)[id].stockManaged && newQuantity.None? ==> r == Err(NullPointer)
    ensures r.Ok? <==> id in old(prods.rows) && old(prods.rows)[id].stockManaged && newQuantity.Some?
    ensures r.Ok? ==> prods.rows == old(prods.rows)[id := old(prods.rows)[id].(stockQuantity := newQuantity.value)]
    ensures r.Err? ==> prods.rows == old(prods.rows)
    ensures prods.nextId == old(prods.nextId)
  {
    if id !in prods.rows {
      return Err(NotFound);
    }
    var product := prods.rows[id];
    if !product.stockManaged {
      return Err(StockNotManaged);
    }
    if newQuantity.None? {
      return Err(NullPointer);
    }
    prods.rows := prods.rows[id := product.(stockQuantity := newQuantity.value)];
    r := Ok(());
  }

  /** A stock update keeps every other field, so only the stock flags can change. */
  lemma StockUpdateKeepsPrices(p: Product, q: int)
    ensures PriceWithVat(p.(stockQuantity := q)) == PriceWithVat(p)
    ensures VatAmount(p.(stockQuantity := q)) == VatAmount(p)
    ensures q <= 0 && p.stockManaged ==> IsOutOfStock(p.(stockQuantity := q))
  {
  }
}
