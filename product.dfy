/**
 * The product entity: prices with VAT, stock flags. Amounts are integers in
 * hundredths (the columns have scale 2): `unitPrice` in cents, `vatRate` in
 * hundredths of a percent (20.00 % is 2000).
 */
module ProductModel {
  import opened Wrappers

  datatype ProductType = Product | Service | Variant | Bundle
  datatype ProductStatus = Available | OutOfStock | Discontinued | Pending | Draft

  /** Default VAT rate of a new product: 20.00 %. */
  const DefaultVatRate := 2000

  /** A row of `products`; `categoryId` is the `category_id` foreign key. */
  datatype Product = Product(
    code: string,
    name: string,
    description: Option<string>,
    active: bool,
    productType: ProductType,
    status: ProductStatus,
    reference: Option<string>,
    sku: Option<string>,
    ean: Option<string>,
    unitPrice: Option<int>,
    vatRate: Option<int>,
    stockManaged: bool,
    stockQuantity: int,
    minStockLevel: int,
    maxStockLevel: int,
    categoryId: int)

  /** `setScale(0, HALF_UP)` of n / d: to the nearest integer, halves away from zero. */
  function RoundHalfUp(n: int, d: int): int
    requires d > 0
  {
    if n >= 0 then (2 * n + d) / (2 * d) else -((2 * -n + d) / (2 * d))
  }

  /**
   * The rounded value lies within half a unit of n / d, and a value exactly
   * half-way is pushed away from zero.
   */
  lemma RoundHalfUpNearest(n: int, d: int)
    requires d > 0
    ensures var q := RoundHalfUp(n, d);
      && -d <= 2 * (q * d - n) <= d
      && (2 * (q * d - n) == d ==> n >= 0)
      && (2 * (q * d - n) == -d ==> n < 0)
  {
    if n >= 0 {
      var q := (2 * n + d) / (2 * d);
      assert q * (2 * d) <= 2 * n + d < q * (2 * d) + 2 * d;
    } else {
      var q := (2 * -n + d) / (2 * d);
      assert q * (2 * d) <= 2 * -n + d < q * (2 * d) + 2 * d;
    }
  }

  /** Rounding is symmetric around zero. */
  lemma RoundHalfUpOdd(n: int, d: int)
    requires d > 0
    ensures RoundHalfUp(-n, d) == -RoundHalfUp(n, d) || n == 0
  {
  }

  /** Adding whole units to a non-negative amount adds them to the rounded value. */
  lemma RoundHalfUpShift(a: int, m: int, d: int)
    requires d > 0 && a >= 0 && m >= 0
    ensures RoundHalfUp(a * d + m, d) == a + RoundHalfUp(m, d)
  {
    var w := 2 * d;
    var x := 2 * m + d;
    assert 2 * (a * d + m) + d == a * w + x;
    DivisionShift(a, x, w);
  }

  lemma DivisionShift(a: int, x: int, w: int)
    requires w > 0 && x >= 0
    ensures (a * w + x) / w == a + x / w
  {
    var q, r := x / w, x % w;
    assert x == q * w + r && 0 <= r < w;
    assert a * w + x == (a + q) * w + r;
    DivisionUnique(a * w + x, w, a + q, r);
  }

  lemma DivisionUnique(n: int, w: int, q: int, r: int)
    requires w > 0 && 0 <= r < w && n == q * w + r
    ensures n / w == q
  {
    var q', r' := n / w, n % w;
    assert n == q' * w + r' && 0 <= r' < w;
    if q' > q {
      assert (q' - q) * w == r - r';
      MultipleAtLeast(q' - q, w);
    } else if q' < q {
      assert (q - q') * w == r' - r;
      MultipleAtLeast(q - q', w);
    }
  }

  lemma {:induction false} MultipleAtLeast(k: int, w: int)
    requires k >= 1 && w > 0
    ensures k * w >= w
  {
    if k > 1 {
      MultipleAtLeast(k - 1, w);
      assert k * w == (k - 1) * w + w;
    }
  }

  /**
   * `getPriceWithVat` in cents: `unitPrice * (1 + vatRate / 100)` rounded
   * half-up to the cent; with a NULL operand, the unit price (or 0).
   */
  function PriceWithVat(p: Product): int
  {
    match (p.unitPrice, p.vatRate)
    case (Some(u), Some(r)) => RoundHalfUp(u * (10000 + r), 10000)
    case _ => p.unitPrice.GetOr(0)
  }

  /** `getVatAmount` in cents: `unitPrice * vatRate / 100` rounded half-up; 0 with a NULL operand. */
  function VatAmount(p: Product): int
  {
    match (p.unitPrice, p.vatRate)
    case (Some(u), Some(r)) => RoundHalfUp(u * r, 10000)
    case _ => 0
  }

  /** Each figure is the exact amount rounded to the nearest cent. */
  lemma PricesWithinHalfCent(p: Product)
    requires p.unitPrice.Some? && p.vatRate.Some?
    ensures var u, r := p.unitPrice.value, p.vatRate.value;
      && -10000 <= 2 * (PriceWithVat(p) * 10000 - u * (10000 + r)) <= 10000
      && -10000 <= 2 * (VatAmount(p) * 10000 - u * r) <= 10000
  {
    RoundHalfUpNearest(p.unitPrice.value * (10000 + p.vatRate.value), 10000);
    RoundHalfUpNearest(p.unitPrice.value * p.vatRate.value, 10000);
  }

  /** For a non-negative price and rate, price with VAT = unit price + VAT amount. */
  lemma PriceIsUnitPlusVat(p: Product)
    requires p.unitPrice.Some? && p.vatRate.Some?
    requires p.unitPrice.value >= 0 && p.vatRate.value >= 0
    ensures PriceWithVat(p) == p.unitPrice.value + VatAmount(p)
  {
    var u, r := p.unitPrice.value, p.vatRate.value;
    assert u * (10000 + r) == u * 10000 + u * r;
    RoundHalfUpShift(u, u * r, 10000);
  }

  /** With a NULL price or rate there is no VAT and the price is passed through. */
  lemma NullOperandsGiveNoVat(p: Product)
    requires p.unitPrice.None? || p.vatRate.None?
    ensures VatAmount(p) == 0
    ensures PriceWithVat(p) == if p.unitPrice.Some? then p.unitPrice.value else 0
  {
  }

  /** Worked example: 19.99 at the default 20 % sells for 23.99, of which 4.00 is VAT. */
  lemma DefaultRateExample(p: Product)
    requires p.unitPrice == Some(1999) && p.vatRate == Some(DefaultVatRate)
    ensures PriceWithVat(p) == 2399 && VatAmount(p) == 400
  {
  }

  /** `isLowStock`: a stock-managed product at or below its minimum level. */
  predicate IsLowStock(p: Product)
  {
    p.stockManaged && p.stockQuantity <= p.minStockLevel
  }

  /** `isOutOfStock`: a stock-managed product with no positive quantity. */
  predicate IsOutOfStock(p: Product)
  {
    p.stockManaged && p.stockQuantity <= 0
  }

  /** Neither flag is ever raised for a product without stock management. */
  lemma UnmanagedNeverFlagged(p: Product)
    ensures !p.stockManaged ==> !IsLowStock(p) && !IsOutOfStock(p)
    ensures p.stockManaged ==> (IsOutOfStock(p) <==> p.stockQuantity <= 0)
  {
  }

  /** With a non-negative minimum, an out-of-stock product is also low on stock. */
  lemma OutOfStockIsLowStock(p: Product)
    requires p.minStockLevel >= 0
    ensures IsOutOfStock(p) ==> IsLowStock(p)
  {
  }
}
