/**
 * The pure part of QuotationService.create: each requested item becomes a row
 * whose totalPrice is `qty·unitPrice + tax` printed with toFixed(2), and the
 * quotation's totalAmount is the sum of those printed totals, read back with
 * `new Decimal` and printed again with toFixed(2).
 */
module Pricing {
  import opened Wrappers
  import opened Money
  import opened Folds

  /** An item as the request carries it (CreateItemDto after validation). */
  datatype CreateItemDto = CreateItemDto(
    itemName: string,
    description: Option<string>,
    quantity: int,
    unitPrice: string,
    tax: Option<string>)

  /** The row handed to the database for one item. */
  datatype ItemRow = ItemRow(
    itemName: string,
    description: string,
    quantity: int,
    unitPrice: string,
    tax: string,
    totalPrice: string)

  /** decimal.js's "[DecimalError] Invalid argument", naming the string it rejected. */
  datatype PricingError = InvalidDecimal(argument: string)

  /** The quotation-level result: the item rows and the totalAmount string. */
  datatype PricedItems = PricedItems(rows: seq<ItemRow>, totalAmount: string)

  function DecimalArgument(s: string): Result<Decimal, PricingError>
  {
    match ParseDecimal(s)
    case Some(d) => Ok(d)
    case None => Err(InvalidDecimal(s))
  }

  /** `it.tax ? new Decimal(it.tax) : new Decimal(0)`: an absent or empty tax counts as zero. */
  function TaxAmount(tax: Option<string>): Result<Decimal, PricingError>
  {
    if tax.Some? && tax.value != "" then DecimalArgument(tax.value) else Ok(Decimal(0, 0))
  }

  /** The exact, unrounded `qty.mul(unit).plus(tax)`. */
  function LineTotal(it: CreateItemDto): Result<Decimal, PricingError>
  {
    match DecimalArgument(it.unitPrice)
    case Err(e) => Err(e)
    case Ok(unit) =>
      match TaxAmount(it.tax)
      case Err(e) => Err(e)
      case Ok(tax) => Ok(Plus(Times(Decimal(it.quantity, 0), unit), tax))
  }

  /**
   * The whole number of cents an item's total is rounded to (nothing for an
   * item whose numerals are rejected; such an item aborts create anyway).
   */
  function ItemCents(it: CreateItemDto): int {
    match LineTotal(it)
    case Ok(total) => Round2(total)
    case Err(_) => 0
  }

  /** The map callback of create: one item to one row. */
  function PriceItem(it: CreateItemDto): (r: Result<ItemRow, PricingError>)
    ensures r.Ok? <==> LineTotal(it).Ok?
    ensures r.Err? ==> r.error == LineTotal(it).error
    ensures r.Ok? ==> ParseDecimal(r.value.totalPrice) == Some(Decimal(ItemCents(it), 2))
    ensures r.Ok? ==> r.value.description == (if it.description.Some? then it.description.value else "")
    ensures r.Ok? ==> r.value.tax == (if it.tax.Some? then it.tax.value else "0.00")
    ensures r.Ok? ==> r.value.itemName == it.itemName && r.value.quantity == it.quantity && r.value.unitPrice == it.unitPrice
  {
    match LineTotal(it)
    case Err(e) => Err(e)
    case Ok(total) =>
      ParseToFixed2(total);
      Ok(ItemRow(it.itemName, it.description.GetOr(""), it.quantity, it.unitPrice, it.tax.GetOr("0.00"), ToFixed2(total)))
  }

  /** `dto.items.map(...)`: the first item that fails to parse aborts the whole map. */
  function PriceItems(items: seq<CreateItemDto>): Result<seq<ItemRow>, PricingError> {
    MapAll(items, PriceItem)
  }

  /** `new Decimal(it.totalPrice)`. */
  function ReadTotal(row: ItemRow): Result<Decimal, PricingError> {
    DecimalArgument(row.totalPrice)
  }

  /**
   * `s.reduce((acc, x) => acc.plus(read(x)), new Decimal(0))`, where a `read`
   * that throws aborts the reduce.
   */
  function SumRead<T, E>(s: seq<T>, read: T -> Result<Decimal, E>): Result<Decimal, E> {
    if s == [] then Ok(Decimal(0, 0))
    else
      match SumRead(s[..|s| - 1], read)
      case Err(e) => Err(e)
      case Ok(acc) =>
        match read(s[|s| - 1])
        case Err(e) => Err(e)
        case Ok(t) => Ok(Plus(acc, t))
  }

  /** The reduce of create that adds up the rows' totalPrice strings. */
  function SumTotals(rows: seq<ItemRow>): Result<Decimal, PricingError> {
    SumRead(rows, ReadTotal)
  }

  /** Lines 21-38 of create: the rows and `totalAmount`. */
  function Price(items: seq<CreateItemDto>): Result<PricedItems, PricingError>
  {
    match PriceItems(items)
    case Err(e) => Err(e)
    case Ok(rows) =>
      match SumTotals(rows)
      case Err(e) => Err(e)
      case Ok(sum) => Ok(PricedItems(rows, ToFixed2(sum)))
  }

  /** Every item's unit price and tax are numerals decimal.js accepts. */
  predicate Priceable(items: seq<CreateItemDto>) {
    forall i :: 0 <= i < |items| ==> LineTotal(items[i]).Ok?
  }

  /** The sum of the items' rounded totals, in cents. */
  function TotalCents(items: seq<CreateItemDto>): int {
    SumBy(items, ItemCents)
  }

  /**
   * The map produces one row per item, in order, or fails exactly when some
   * item does, with the error of the first such item.
   */
  lemma PriceItemsRows(items: seq<CreateItemDto>)
    ensures PriceItems(items).Ok? <==> Priceable(items)
    ensures PriceItems(items).Ok? ==>
      |PriceItems(items).value| == |items| &&
      forall i :: 0 <= i < |items| ==> PriceItem(items[i]) == Ok(PriceItems(items).value[i])
    ensures PriceItems(items).Err? ==>
      exists k :: 0 <= k < |items| && LineTotal(items[k]) == Err(PriceItems(items).error) &&
        forall i :: 0 <= i < k ==> LineTotal(items[i]).Ok?
  {
    MapAllSpec(items, PriceItem);
  }

  /**
   * Summing amounts that each read back as a whole number of cents gives
   * exactly the sum of those cents.
   */
  lemma {:induction false} SumOfCents<T, R, E>(items: seq<T>, rows: seq<R>, read: R -> Result<Decimal, E>, cents: T -> int)
    requires |rows| == |items|
    requires forall i :: 0 <= i < |items| ==> read(rows[i]) == Ok(Decimal(cents(items[i]), 2))
    ensures SumRead(rows, read) == Ok(if items == [] then Decimal(0, 0) else Decimal(SumBy(items, cents), 2))
  {
    if items != [] {
      var n := |items| - 1;
      assert forall i :: 0 <= i < n ==> items[..n][i] == items[i] && rows[..n][i] == rows[i];
      SumOfCents(items[..n], rows[..n], read, cents);
      var prev := if n == 0 then 0 else SumBy(items[..n], cents);
      PlusSameScale(prev, cents(items[n]), 2);
    }
  }

  /** Each priced row's totalPrice reads back as its item's rounded cents. */
  lemma PricedRowsRead(items: seq<CreateItemDto>, rows: seq<ItemRow>)
    requires |rows| == |items|
    requires forall i :: 0 <= i < |items| ==> PriceItem(items[i]) == Ok(rows[i])
    ensures forall i :: 0 <= i < |items| ==> ReadTotal(rows[i]) == Ok(Decimal(ItemCents(items[i]), 2))
  {
    forall i | 0 <= i < |items| ensures ReadTotal(rows[i]) == Ok(Decimal(ItemCents(items[i]), 2)) {
      assert PriceItem(items[i]) == Ok(rows[i]);
    }
  }

  /** A sum held in cents is printed as those cents. */
  lemma PrintCents(c: int)
    ensures ParseDecimal(ToFixed2(Decimal(c, 2))) == Some(Decimal(c, 2))
  {
    Round2OfCents(c);
    ParseToFixed2(Decimal(c, 2));
  }

  /**
   * totalAmount is the sum of the rounded item totals, to the cent:
   * reading it back gives TotalCents(items) at scale 2.
   */
  lemma PriceTotal(items: seq<CreateItemDto>)
    ensures Price(items).Ok? <==> Priceable(items)
    ensures Price(items).Ok? ==>
      Price(items).value.rows == PriceItems(items).value &&
      Price(items).value.totalAmount == ToFixed2(Decimal(TotalCents(items), 2)) &&
      ParseDecimal(Price(items).value.totalAmount) == Some(Decimal(TotalCents(items), 2))
  {
    PriceItemsRows(items);
    if Priceable(items) {
      var rows := PriceItems(items).value;
      PricedRowsRead(items, rows);
      SumOfCents(items, rows, ReadTotal, ItemCents);
      PrintCents(TotalCents(items));
      if items == [] {
        assert ToFixed2(Decimal(0, 0)) == ToFixed2(Decimal(0, 2));
      }
    }
  }

  lemma PriceablePermutation(a: seq<CreateItemDto>, b: seq<CreateItemDto>)
    requires multiset(a) == multiset(b) && Priceable(a)
    ensures Priceable(b)
  {
    forall i | 0 <= i < |b| ensures LineTotal(b[i]).Ok? {
      assert b[i] in multiset(a);
    }
  }

  /** Reordering the items changes neither whether create can price them nor totalAmount. */
  lemma PriceOrderIndependent(a: seq<CreateItemDto>, b: seq<CreateItemDto>)
    requires multiset(a) == multiset(b)
    ensures Price(a).Ok? <==> Price(b).Ok?
    ensures Price(a).Ok? ==> Price(a).value.totalAmount == Price(b).value.totalAmount
  {
    PriceTotal(a);
    PriceTotal(b);
    if Priceable(a) {
      PriceablePermutation(a, b);
      SumByPermutation(a, b, ItemCents);
    } else if Priceable(b) {
      PriceablePermutation(b, a);
    }
  }

  /** An empty item list is priced, with totalAmount "0.00". */
  lemma PriceNoItems()
    ensures Price([]) == Ok(PricedItems([], "0.00"))
  {
    assert CentsNumeral(0) == "0.00";
  }

  lemma ReadCents(s: string, a: nat)
    requires s == CentsNumeral(a)
    ensures DecimalArgument(s) == Ok(Decimal(a, 2))
  {
    ParseNonNegativeCents(a);
  }

  /** For a price and a tax given in cents, the row's total is qty · price + tax. */
  lemma PriceItemInCents(it: CreateItemDto, price: nat, tax: nat, total: nat)
    requires it.unitPrice == CentsNumeral(price) && it.tax == Some(CentsNumeral(tax))
    requires total == it.quantity * price + tax
    ensures PriceItem(it).Ok?
    ensures ItemCents(it) == total
    ensures PriceItem(it).value.totalPrice == CentsNumeral(total)
  {
    ReadCents(it.unitPrice, price);
    ReadCents(it.tax.value, tax);
    assert it.tax.value != "";
    var amount := Plus(Times(Decimal(it.quantity, 0), Decimal(price, 2)), Decimal(tax, 2));
    assert Pow10(0) == 1;
    PlusSameScale(it.quantity * price, tax, 2);
    assert LineTotal(it) == Ok(amount) && amount == Decimal(total, 2);
    Round2OfCents(total);
  }
}
