/**
 * The `ProductItem` record every crawler yields and every later stage reads,
 * and its dictionary form (`model_dump`) as a row of cells.
 * The `scraped_at` timestamp is not part of this model.
 */
module Models {
  import opened Basics
  import opened Jsonl

  /** A product listing: `site` and `category` are required, every other field has a default. */
  datatype ProductItem = ProductItem(
    site: string,
    category: string,
    title: Option<string> := None,
    priceText: Option<string> := None,
    priceMin: Option<real> := None,
    priceMax: Option<real> := None,
    currency: Option<string> := None,
    moq: Option<string> := None,
    unit: Option<string> := None,
    supplierName: Option<string> := None,
    supplierLocation: Option<string> := None,
    supplierYears: Option<string> := None,
    rating: Option<real> := None,
    reviewsCount: Option<int> := None,
    url: Option<string> := None,
    productPageUrl: Option<string> := None,
    images: seq<string> := [])

  /** The fields outside what a listing page yields (title, both URLs) are at their defaults. */
  predicate OnlyListingFields(it: ProductItem) {
    && it.priceText.None? && it.priceMin.None? && it.priceMax.None? && it.currency.None?
    && it.moq.None? && it.unit.None? && it.supplierName.None? && it.supplierLocation.None?
    && it.supplierYears.None? && it.rating.None? && it.reviewsCount.None? && it.images == []
  }

  /** Only the two required fields are set. */
  predicate IsBare(it: ProductItem) {
    OnlyListingFields(it) && it.title.None? && it.url.None? && it.productPageUrl.None?
  }

  /** Supplying only `site` and `category` leaves every other field at its default. */
  lemma DefaultsAreUnset(site: string, category: string)
    ensures var it := ProductItem(site, category);
      IsBare(it) && it.site == site && it.category == category
  {
  }

  /** The dictionary keys of `model_dump`, in declaration order. */
  const FieldNames: seq<string> := [
    "site", "category", "title", "price_text", "price_min", "price_max", "currency", "moq", "unit",
    "supplier_name", "supplier_location", "supplier_years", "rating", "reviews_count", "url",
    "product_page_url", "images"]

  function TextCell(v: Option<string>): Cell {
    if v.Some? then Str(v.value) else Null
  }

  function RealCell(v: Option<real>): Cell {
    if v.Some? then Number(v.value) else Null
  }

  function IntCell(v: Option<int>): Cell {
    if v.Some? then Number(v.value as real) else Null
  }

  /** The cell `model_dump` stores under field `name`. */
  function FieldCell(it: ProductItem, name: string): Cell {
    match name
    case "site" => Str(it.site)
    case "category" => Str(it.category)
    case "title" => TextCell(it.title)
    case "price_text" => TextCell(it.priceText)
    case "price_min" => RealCell(it.priceMin)
    case "price_max" => RealCell(it.priceMax)
    case "currency" => TextCell(it.currency)
    case "moq" => TextCell(it.moq)
    case "unit" => TextCell(it.unit)
    case "supplier_name" => TextCell(it.supplierName)
    case "supplier_location" => TextCell(it.supplierLocation)
    case "supplier_years" => TextCell(it.supplierYears)
    case "rating" => RealCell(it.rating)
    case "reviews_count" => IntCell(it.reviewsCount)
    case "url" => TextCell(it.url)
    case "product_page_url" => TextCell(it.productPageUrl)
    case _ => StrList(it.images)
  }

  /** `model_dump()`: every field under its name; `None` becomes a null cell. */
  function ItemRow(it: ProductItem): (row: Row)
    ensures row.Keys == set k | k in FieldNames
    ensures Get(row, "site") == Str(it.site) && Get(row, "category") == Str(it.category)
    ensures Get(row, "title") == TextCell(it.title) && Get(row, "price_text") == TextCell(it.priceText)
    ensures Get(row, "price_min") == RealCell(it.priceMin) && Get(row, "price_max") == RealCell(it.priceMax)
    ensures Get(row, "currency") == TextCell(it.currency) && Get(row, "moq") == TextCell(it.moq)
    ensures Get(row, "unit") == TextCell(it.unit) && Get(row, "supplier_name") == TextCell(it.supplierName)
    ensures Get(row, "supplier_location") == TextCell(it.supplierLocation)
    ensures Get(row, "supplier_years") == TextCell(it.supplierYears)
    ensures Get(row, "rating") == RealCell(it.rating) && Get(row, "reviews_count") == IntCell(it.reviewsCount)
    ensures Get(row, "url") == TextCell(it.url) && Get(row, "product_page_url") == TextCell(it.productPageUrl)
    ensures Get(row, "images") == StrList(it.images)
  {
    var row := map k | k in FieldNames :: FieldCell(it, k);
    assert forall k :: k in FieldNames ==> Get(row, k) == FieldCell(it, k);
    NameCells(it, row);
    PriceCells(it, row);
    TermsCells(it, row);
    SupplierCells(it, row);
    ReviewCells(it, row);
    LinkCells(it, row);
    row
  }

  /** The required fields and the title. */
  lemma NameCells(it: ProductItem, row: Row)
    requires forall k :: k in FieldNames ==> Get(row, k) == FieldCell(it, k)
    ensures Get(row, "site") == Str(it.site)
    ensures Get(row, "category") == Str(it.category)
    ensures Get(row, "title") == TextCell(it.title)
  {
  }

  /** The price text and the parsed range. */
  lemma PriceCells(it: ProductItem, row: Row)
    requires forall k :: k in FieldNames ==> Get(row, k) == FieldCell(it, k)
    ensures Get(row, "price_text") == TextCell(it.priceText)
    ensures Get(row, "price_min") == RealCell(it.priceMin)
    ensures Get(row, "price_max") == RealCell(it.priceMax)
  {
  }

  /** Currency, minimum order and unit. */
  lemma TermsCells(it: ProductItem, row: Row)
    requires forall k :: k in FieldNames ==> Get(row, k) == FieldCell(it, k)
    ensures Get(row, "currency") == TextCell(it.currency)
    ensures Get(row, "moq") == TextCell(it.moq)
    ensures Get(row, "unit") == TextCell(it.unit)
  {
  }

  /** The supplier fields. */
  lemma SupplierCells(it: ProductItem, row: Row)
    requires forall k :: k in FieldNames ==> Get(row, k) == FieldCell(it, k)
    ensures Get(row, "supplier_name") == TextCell(it.supplierName)
    ensures Get(row, "supplier_location") == TextCell(it.supplierLocation)
    ensures Get(row, "supplier_years") == TextCell(it.supplierYears)
  {
  }

  /** Rating and review count. */
  lemma ReviewCells(it: ProductItem, row: Row)
    requires forall k :: k in FieldNames ==> Get(row, k) == FieldCell(it, k)
    ensures Get(row, "rating") == RealCell(it.rating)
    ensures Get(row, "reviews_count") == IntCell(it.reviewsCount)
  {
  }

  /** Both URLs and the image list. */
  lemma LinkCells(it: ProductItem, row: Row)
    requires forall k :: k in FieldNames ==> Get(row, k) == FieldCell(it, k)
    ensures Get(row, "url") == TextCell(it.url)
    ensures Get(row, "product_page_url") == TextCell(it.productPageUrl)
    ensures Get(row, "images") == StrList(it.images)
  {
  }
}
