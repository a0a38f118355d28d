/**
 * The relational schema of populate_db.py:16-122: six staging tables, which
 * have no keys and are modelled as sequences of rows, and six final tables,
 * each modelled as a map from its integer primary key to the rest of the row.
 */
module Schema {

  // ---------------------------------------------------------------------------
  // Staging tables (populate_db.py:33-72)
  // ---------------------------------------------------------------------------

  datatype StageRegion = StageRegion(regionId: int, region: string)

  datatype StageCountry = StageCountry(countryId: int, country: string, region: string)

  datatype StageCustomer = StageCustomer(
    customerId: int, firstName: string, lastName: string, address: string, city: string, country: string)

  datatype StageCategory = StageCategory(categoryId: int, category: string, description: string)

  /** The unit price is kept as the text token it was deduplicated on. */
  datatype StageProduct = StageProduct(productId: int, productName: string, unitPrice: string, category: string)

  datatype StageOrder = StageOrder(
    orderId: int, customerName: string, productName: string, orderDate: int, quantity: int)

  datatype Staging = Staging(
    regions: seq<StageRegion>,
    countries: seq<StageCountry>,
    customers: seq<StageCustomer>,
    categories: seq<StageCategory>,
    products: seq<StageProduct>,
    orders: seq<StageOrder>)

  const EmptyStaging := Staging([], [], [], [], [], [])

  // ---------------------------------------------------------------------------
  // Final tables (populate_db.py:75-121), keyed by primary key
  // ---------------------------------------------------------------------------

  datatype Region = Region(region: string)

  datatype Country = Country(country: string, regionId: int)

  datatype Customer = Customer(firstName: string, lastName: string, address: string, city: string, countryId: int)

  datatype ProductCategory = ProductCategory(category: string, description: string)

  datatype Product = Product(productName: string, unitPrice: string, categoryId: int)

  datatype OrderDetail = OrderDetail(customerId: int, productId: int, orderDate: int, quantity: int)

  datatype Tables = Tables(
    region: map<int, Region>,
    country: map<int, Country>,
    customer: map<int, Customer>,
    category: map<int, ProductCategory>,
    product: map<int, Product>,
    order: map<int, OrderDetail>)

  const EmptyTables := Tables(map[], map[], map[], map[], map[], map[])

  /** Every foreign key of populate_db.py:84, 95, 109, 119 and 120 names an existing parent row. */
  predicate RefIntegrity(t: Tables) {
    (forall k :: k in t.country ==> t.country[k].regionId in t.region) &&
    (forall k :: k in t.customer ==> t.customer[k].countryId in t.country) &&
    (forall k :: k in t.product ==> t.product[k].categoryId in t.category) &&
    (forall k :: k in t.order ==> t.order[k].customerId in t.customer && t.order[k].productId in t.product)
  }
}
