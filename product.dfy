/** The product document of the catalog (backend/models/Product.js): its
    inventory variants, the derived stock values, the pre-save hook that
    persists `isOutOfStock`, the one inventory-changing instance method, and
    the selection predicates behind the model's static finders. */
module ProductModel {
  import opened Collections

  /** One purchasable SKU of a product (the embedded inventory sub-document). */
  datatype Variant = Variant(skuId: int, sizeLabel: string, inventory: int, available: bool)

  /** The fields of a product document this model reads or writes. */
  datatype Product = Product(
    productId: int,
    productName: string,
    brand: string,
    category: string,
    gender: string,
    primaryColour: string,
    price: real,
    mrp: real,
    rating: real,
    inventoryInfo: seq<Variant>,
    isActive: bool,
    isOutOfStock: bool)

  /** The two schema validators kept by the model: at least one variant, and no negative count. */
  predicate WellFormed(p: Product)
  {
    |p.inventoryInfo| > 0 && NonNegative(p.inventoryInfo)
  }

  predicate NonNegative(vs: seq<Variant>)
  {
    forall i :: 0 <= i < |vs| ==> vs[i].inventory >= 0
  }

  // ----- Derived stock values -----

  /** What one variant adds to the total: its count when available, nothing otherwise. */
  function Contribution(v: Variant): int
  {
    if v.available then v.inventory else 0
  }

  /** The `totalStock` virtual and the sum the pre-save hook computes: the counts
      of the available variants added up. */
  function TotalStock(vs: seq<Variant>): int
  {
    if vs == [] then 0 else Contribution(vs[0]) + TotalStock(vs[1..])
  }

  /** The `inStock` virtual. */
  predicate InStock(p: Product)
  {
    TotalStock(p.inventoryInfo) > 0
  }

  predicate IsAvailable(v: Variant)
  {
    v.available
  }

  /** Plain sum of the counts, availability ignored: the reference against which
      `TotalStock` is checked. */
  function SumInventory(vs: seq<Variant>): int
  {
    if vs == [] then 0 else vs[0].inventory + SumInventory(vs[1..])
  }

  /** The total stock is the sum of the counts of exactly the available variants. */
  lemma {:induction false} TotalStockIsSumOfAvailable(vs: seq<Variant>)
    ensures TotalStock(vs) == SumInventory(Filter(vs, IsAvailable))
  {
    if vs != [] {
      TotalStockIsSumOfAvailable(vs[1..]);
      var head := if IsAvailable(vs[0]) then [vs[0]] else [];
      assert Filter(vs, IsAvailable) == head + Filter(vs[1..], IsAvailable);
      SumInventoryConcat(head, Filter(vs[1..], IsAvailable));
    }
  }

  lemma {:induction false} SumInventoryConcat(a: seq<Variant>, b: seq<Variant>)
    ensures SumInventory(a + b) == SumInventory(a) + SumInventory(b)
  {
    if a == [] {
      assert a + b == b;
    } else {
      assert (a + b)[1..] == a[1..] + b;
      SumInventoryConcat(a[1..], b);
    }
  }

  /** With no negative count the total is never negative. */
  lemma {:induction false} TotalStockNonNegative(vs: seq<Variant>)
    requires NonNegative(vs)
    ensures TotalStock(vs) >= 0
  {
    if vs != [] {
      TotalStockNonNegative(vs[1..]);
    }
  }

  /** With no negative count, the total is 0 exactly when every available variant has count 0. */
  lemma {:induction false} TotalStockZeroIff(vs: seq<Variant>)
    requires NonNegative(vs)
    ensures TotalStock(vs) == 0 <==> forall i :: 0 <= i < |vs| && vs[i].available ==> vs[i].inventory == 0
  {
    if vs != [] {
      TotalStockZeroIff(vs[1..]);
      TotalStockNonNegative(vs[1..]);
      forall i | 1 <= i < |vs| ensures vs[i] == vs[1..][i - 1] { }
    }
  }

  /** Replacing one variant changes the total by the difference of the two contributions;
      in particular an unavailable variant's count never matters. */
  lemma {:induction false} TotalStockUpdate(vs: seq<Variant>, i: nat, v: Variant)
    requires i < |vs|
    ensures TotalStock(vs[i := v]) == TotalStock(vs) - Contribution(vs[i]) + Contribution(v)
  {
    if i > 0 {
      assert vs[i := v][1..] == vs[1..][i - 1 := v];
      TotalStockUpdate(vs[1..], i - 1, v);
    } else {
      assert vs[i := v][1..] == vs[1..];
    }
  }

  // ----- Pre-save hook -----

  /** The persisted flag agrees with the counters. */
  predicate StockFlagConsistent(p: Product)
  {
    p.isOutOfStock == (TotalStock(p.inventoryInfo) == 0)
  }

  /** `save()`: the pre-save hook recomputes `isOutOfStock` from the variants; nothing else changes. */
  function Save(p: Product): (r: Product)
    ensures StockFlagConsistent(r)
    ensures r.inventoryInfo == p.inventoryInfo && r.(isOutOfStock := p.isOutOfStock) == p
  {
    p.(isOutOfStock := TotalStock(p.inventoryInfo) == 0)
  }

  /** With no negative count, the saved flag is exactly the negation of `inStock`. (A negative
      total, which the schema's `min: 0` rules out, would make both false.) */
  lemma SavedFlagIsNotInStock(p: Product)
    requires NonNegative(p.inventoryInfo)
    ensures Save(p).isOutOfStock == !InStock(Save(p))
  {
    TotalStockNonNegative(p.inventoryInfo);
  }

  /** Saving twice is saving once. */
  lemma SaveIdempotent(p: Product)
    ensures Save(Save(p)) == Save(p)
  {
  }

  /** After saving, a product whose available variants all have count 0 is flagged out of stock. */
  lemma AllZeroIsOutOfStock(p: Product)
    requires NonNegative(p.inventoryInfo)
    requires forall i :: 0 <= i < |p.inventoryInfo| ==> p.inventoryInfo[i].inventory == 0
    ensures Save(p).isOutOfStock
  {
    TotalStockZeroIff(p.inventoryInfo);
  }

  // ----- Array.prototype.find over the variants -----

  /** Index of the first variant with the given SKU, as `find(item => item.skuId === skuId)` picks it. */
  function SkuIndex(vs: seq<Variant>, skuId: int): (r: Option<nat>)
    ensures r.Some? ==> r.value < |vs| && vs[r.value].skuId == skuId
                        && forall j :: 0 <= j < r.value ==> vs[j].skuId != skuId
    ensures r.None? ==> forall j :: 0 <= j < |vs| ==> vs[j].skuId != skuId
  {
    if vs == [] then None
    else if vs[0].skuId == skuId then Some(0)
    else match SkuIndex(vs[1..], skuId)
      case None => None
      case Some(k) => Some(k + 1)
  }

  /** Index of the first variant with the given size label, as `find(item => item.label === sizeLabel)` picks it. */
  function LabelIndex(vs: seq<Variant>, wanted: string): (r: Option<nat>)
    ensures r.Some? ==> r.value < |vs| && vs[r.value].sizeLabel == wanted
                        && forall j :: 0 <= j < r.value ==> vs[j].sizeLabel != wanted
    ensures r.None? ==> forall j :: 0 <= j < |vs| ==> vs[j].sizeLabel != wanted
  {
    if vs == [] then None
    else if vs[0].sizeLabel == wanted then Some(0)
    else match LabelIndex(vs[1..], wanted)
      case None => None
      case Some(k) => Some(k + 1)
  }

  /** `isSizeAvailable`: the first variant with that label exists, is available and has stock. */
  function IsSizeAvailable(p: Product, wanted: string): (r: bool)
    ensures r <==> exists i :: 0 <= i < |p.inventoryInfo| && p.inventoryInfo[i].sizeLabel == wanted
                              && (forall j :: 0 <= j < i ==> p.inventoryInfo[j].sizeLabel != wanted)
                              && p.inventoryInfo[i].available && p.inventoryInfo[i].inventory > 0
  {
    match LabelIndex(p.inventoryInfo, wanted)
    case None => false
    case Some(i) => p.inventoryInfo[i].available && p.inventoryInfo[i].inventory > 0
  }

  /** A size reported available means the product is in stock (no count being negative). */
  lemma SizeAvailableImpliesInStock(p: Product, wanted: string)
    requires NonNegative(p.inventoryInfo)
    requires IsSizeAvailable(p, wanted)
    ensures InStock(p)
  {
    TotalStockZeroIff(p.inventoryInfo);
    TotalStockNonNegative(p.inventoryInfo);
  }

  // ----- decreaseInventory -----

  datatype DecreaseStatus = Saved | SkuNotFound | InsufficientInventory

  /** The matched variant after the decrement: count lowered by `quantity`, and
      `available` cleared when the count reaches exactly 0. */
  function Decremented(v: Variant, quantity: int): (r: Variant)
    ensures r.skuId == v.skuId && r.sizeLabel == v.sizeLabel
    ensures r.inventory == v.inventory - quantity
    ensures r.available == (v.available && r.inventory != 0)
  {
    var w := v.(inventory := v.inventory - quantity);
    if w.inventory == 0 then w.(available := false) else w
  }

  /** The document a successful `decreaseInventory` saves, for the matched index `i`. */
  function AfterDecrease(p: Product, i: nat, quantity: int): Product
    requires i < |p.inventoryInfo|
  {
    Save(p.(inventoryInfo := p.inventoryInfo[i := Decremented(p.inventoryInfo[i], quantity)]))
  }

  /** `decreaseInventory(skuId, quantity)`. `doc` is the product as the caller holds it
      afterwards: unchanged on either error, the saved document on success. */
  method DecreaseInventory(p: Product, skuId: int, quantity: int) returns (doc: Product, status: DecreaseStatus)
    ensures SkuIndex(p.inventoryInfo, skuId).None? ==> status == SkuNotFound && doc == p
    ensures SkuIndex(p.inventoryInfo, skuId).Some? ==>
      var i := SkuIndex(p.inventoryInfo, skuId).value;
      if p.inventoryInfo[i].inventory < quantity then
        status == InsufficientInventory && doc == p
      else
        status == Saved && doc == AfterDecrease(p, i, quantity)
  {
    var items := p.inventoryInfo;
    var i := 0;
    while i < |items| && items[i].skuId != skuId
      invariant 0 <= i <= |items|
      invariant forall j :: 0 <= j < i ==> items[j].skuId != skuId
    {
      i := i + 1;
    }
    if i == |items| {
      return p, SkuNotFound;
    }
    var item := items[i];
    if item.inventory < quantity {
      return p, InsufficientInventory;
    }
    item := item.(inventory := item.inventory - quantity);
    if item.inventory == 0 {
      item := item.(available := false);
    }
    items := items[i := item];
    doc := Save(p.(inventoryInfo := items));
    status := Saved;
  }

  /** A successful decrement keeps the schema's validators satisfied, touches no other
      variant, and leaves the persisted flag in step with the counters. */
  lemma DecreasePreservesWellFormed(p: Product, i: nat, quantity: int)
    requires WellFormed(p) && i < |p.inventoryInfo|
    requires quantity <= p.inventoryInfo[i].inventory
    ensures WellFormed(AfterDecrease(p, i, quantity))
    ensures forall j :: 0 <= j < |p.inventoryInfo| && j != i ==>
              AfterDecrease(p, i, quantity).inventoryInfo[j] == p.inventoryInfo[j]
    ensures StockFlagConsistent(AfterDecrease(p, i, quantity))
  {
  }

  /** A successful decrement lowers the total stock by exactly `quantity` when the
      variant was available, and leaves it unchanged when it was not. */
  lemma DecreaseLowersTotalStock(p: Product, i: nat, quantity: int)
    requires i < |p.inventoryInfo|
    ensures TotalStock(AfterDecrease(p, i, quantity).inventoryInfo) ==
            TotalStock(p.inventoryInfo) - (if p.inventoryInfo[i].available then quantity else 0)
  {
    TotalStockUpdate(p.inventoryInfo, i, Decremented(p.inventoryInfo[i], quantity));
  }

  /** Selling the last unit of the last stocked variant flags the product out of stock. */
  lemma SellingLastUnitMarksOutOfStock(p: Product, i: nat)
    requires WellFormed(p) && i < |p.inventoryInfo| && p.inventoryInfo[i].available
    requires TotalStock(p.inventoryInfo) == p.inventoryInfo[i].inventory
    ensures AfterDecrease(p, i, p.inventoryInfo[i].inventory).isOutOfStock
    ensures !AfterDecrease(p, i, p.inventoryInfo[i].inventory).inventoryInfo[i].available
  {
    DecreaseLowersTotalStock(p, i, p.inventoryInfo[i].inventory);
  }

  // ----- Static finders: which documents each query selects -----

  /** The `findByProductIds` query: `productId` in the list and active. */
  function FindByProductIds(catalog: seq<Product>, productIds: seq<int>): (r: seq<Product>)
    ensures forall p :: p in r <==> p in catalog && p.isActive && p.productId in productIds
  {
    Filter(catalog, (p: Product) => p.isActive && p.productId in productIds)
  }

  /** The `findInStock` query: the caller's extra conditions, active, and not flagged out of stock. */
  function FindInStock(catalog: seq<Product>, extra: Product -> bool): (r: seq<Product>)
    ensures forall p :: p in r <==> p in catalog && extra(p) && p.isActive && !p.isOutOfStock
  {
    Filter(catalog, (p: Product) => extra(p) && p.isActive && !p.isOutOfStock)
  }

  /** Over saved documents, everything `findInStock` selects is in stock. */
  lemma FindInStockIsInStock(catalog: seq<Product>, extra: Product -> bool)
    requires forall i :: 0 <= i < |catalog| ==> WellFormed(catalog[i]) && StockFlagConsistent(catalog[i])
    ensures forall p :: p in FindInStock(catalog, extra) ==> InStock(p)
  {
    forall p | p in FindInStock(catalog, extra) ensures InStock(p) {
      var i :| 0 <= i < |catalog| && catalog[i] == p;
      assert WellFormed(catalog[i]) && StockFlagConsistent(catalog[i]);
      TotalStockNonNegative(p.inventoryInfo);
    }
  }

  /** The `filters` argument of `searchProducts`; `None` stands for an absent key. */
  datatype SearchFilters = SearchFilters(
    category: Option<string>,
    brand: Option<string>,
    gender: Option<string>,
    color: Option<string>,
    minPrice: Option<real>,
    maxPrice: Option<real>,
    minRating: Option<real>)

  /** JavaScript truthiness of an optional string: present and not empty. */
  predicate TruthyText(o: Option<string>)
  {
    o.Some? && o.value != ""
  }

  /** JavaScript truthiness of an optional number: present and not 0. */
  predicate TruthyNumber(o: Option<real>)
  {
    o.Some? && o.value != 0.0
  }

  /** The query `searchProducts` builds, as a predicate on one document. `textMatch`
      stands for the text index's `$search` verdict, which applies only to a non-empty
      search string. */
  predicate MatchesSearch(p: Product, searchQuery: string, f: SearchFilters, textMatch: Product -> bool)
  {
    && p.isActive
    && (searchQuery != "" ==> textMatch(p))
    && (TruthyText(f.category) ==> p.category == f.category.value)
    && (TruthyText(f.brand) ==> p.brand == f.brand.value)
    && (TruthyText(f.gender) ==> p.gender == f.gender.value)
    && (TruthyText(f.color) ==> p.primaryColour == f.color.value)
    && (TruthyNumber(f.minPrice) ==> p.price >= f.minPrice.value)
    && (TruthyNumber(f.maxPrice) ==> p.price <= f.maxPrice.value)
    && (TruthyNumber(f.minRating) ==> p.rating >= f.minRating.value)
  }

  /** `searchProducts(searchQuery, filters)`: the catalog documents the query selects. */
  function SearchProducts(catalog: seq<Product>, searchQuery: string, f: SearchFilters,
                          textMatch: Product -> bool): (r: seq<Product>)
    ensures forall p :: p in r ==> p in catalog && p.isActive
    ensures forall p :: p in r ==>
      && (TruthyText(f.category) ==> p.category == f.category.value)
      && (TruthyText(f.brand) ==> p.brand == f.brand.value)
      && (TruthyText(f.gender) ==> p.gender == f.gender.value)
      && (TruthyText(f.color) ==> p.primaryColour == f.color.value)
      && (TruthyNumber(f.minPrice) ==> f.minPrice.value <= p.price)
      && (TruthyNumber(f.maxPrice) ==> p.price <= f.maxPrice.value)
      && (TruthyNumber(f.minRating) ==> f.minRating.value <= p.rating)
    ensures forall p :: p in catalog && MatchesSearch(p, searchQuery, f, textMatch) ==> p in r
    ensures forall p :: p in r <==> p in catalog && MatchesSearch(p, searchQuery, f, textMatch)
  {
    Filter(catalog, (p: Product) => MatchesSearch(p, searchQuery, f, textMatch))
  }

  /** A falsy bound, such as a minimum price of 0, selects the same documents as no bound. */
  lemma ZeroMinPriceIsIgnored(catalog: seq<Product>, searchQuery: string, f: SearchFilters,
                              textMatch: Product -> bool)
    ensures SearchProducts(catalog, searchQuery, f.(minPrice := Some(0.0)), textMatch)
         == SearchProducts(catalog, searchQuery, f.(minPrice := None), textMatch)
  {
    var g := f.(minPrice := Some(0.0));
    var h := f.(minPrice := None);
    FilterCongruent(catalog, (p: Product) => MatchesSearch(p, searchQuery, g, textMatch),
                             (p: Product) => MatchesSearch(p, searchQuery, h, textMatch));
  }

  /** Adding a filter can only narrow the selection: the filters combine conjunctively. */
  lemma {:induction false} CategoryFilterNarrows(catalog: seq<Product>, searchQuery: string, f: SearchFilters,
                                                 textMatch: Product -> bool, category: string)
    requires !TruthyText(f.category)
    ensures forall p :: p in SearchProducts(catalog, searchQuery, f.(category := Some(category)), textMatch)
                        ==> p in SearchProducts(catalog, searchQuery, f, textMatch)
  {
  }
}
