/**
 * The reconciliation steps of populate_db.py:270-352.  Each `INSERT ...
 * SELECT ... JOIN ... ON CONFLICT (key) DO NOTHING` is modelled in two parts:
 * the set of (key, row) candidates the SELECT yields, and an insert that adds
 * a candidate only when its key is not yet in the table.
 *
 * The SELECT's output order is not fixed, and a name-only join can give one
 * key several candidates; the model therefore promises "some candidate per
 * new key", never which one.
 */
module Reconcile {
  import opened Text
  import opened Schema
  import Stage

  // ---------------------------------------------------------------------------
  // INSERT ... ON CONFLICT (key) DO NOTHING
  // ---------------------------------------------------------------------------

  /** The keys a candidate set proposes. */
  function Keys<V(==,!new)>(cands: set<(int, V)>): (ks: set<int>)
    ensures forall k :: k in ks <==> exists v :: (k, v) in cands
  {
    set p | p in cands :: p.0
  }

  /**
   * `t2` is a possible result of inserting `cands` into `t` with conflicts
   * skipped: every proposed key is present afterwards, rows already present
   * are untouched, and each added row is one of the candidates for its key.
   */
  ghost predicate InsertedSkipping<V(!new)>(t: map<int, V>, cands: set<(int, V)>, t2: map<int, V>) {
    t2.Keys == t.Keys + Keys(cands) &&
    (forall k :: k in t ==> t2[k] == t[k]) &&
    (forall k :: k in t2 && k !in t ==> (k, t2[k]) in cands)
  }

  /** No two candidates share a key. */
  ghost predicate UniqueKeys<V>(cands: set<(int, V)>) {
    forall p, q :: p in cands && q in cands && p.0 == q.0 ==> p == q
  }

  /**
   * Inserts the candidates one at a time, in an order the model leaves open,
   * skipping each one whose key is already in the table.
   */
  method InsertSkipping<V(==,!new)>(t: map<int, V>, cands: set<(int, V)>) returns (t2: map<int, V>)
    ensures InsertedSkipping(t, cands, t2)
  {
    t2 := t;
    var pending := cands;
    while pending != {}
      invariant pending <= cands
      invariant t2.Keys == t.Keys + Keys(cands - pending)
      invariant forall k :: k in t ==> t2[k] == t[k]
      invariant forall k :: k in t2 && k !in t ==> (k, t2[k]) in cands
      decreases |pending|
    {
      var p :| p in pending;
      if p.0 !in t2 {
        t2 := t2[p.0 := p.1];
      }
      pending := pending - {p};
    }
    assert cands - pending == cands;
  }

  /** Running the same insert again changes nothing. */
  lemma InsertIdempotent<V(!new)>(t: map<int, V>, cands: set<(int, V)>, t2: map<int, V>, t3: map<int, V>)
    requires InsertedSkipping(t, cands, t2) && InsertedSkipping(t2, cands, t3)
    ensures t3 == t2
  {
    assert t3.Keys == t2.Keys;
    forall k | k in t3 ensures t3[k] == t2[k] {
      assert k in t2;
    }
  }

  /** With one candidate per key the outcome is determined, whatever the order. */
  lemma InsertDeterministic<V(!new)>(t: map<int, V>, cands: set<(int, V)>, a: map<int, V>, b: map<int, V>)
    requires UniqueKeys(cands)
    requires InsertedSkipping(t, cands, a) && InsertedSkipping(t, cands, b)
    ensures a == b
  {
    forall k | k in a ensures a[k] == b[k] {
      if k !in t {
        assert (k, a[k]) in cands && (k, b[k]) in cands;
      }
    }
  }

  // ---------------------------------------------------------------------------
  // The SELECTs (populate_db.py:273-349)
  // ---------------------------------------------------------------------------

  /** `SELECT RegionID, Region FROM stage_regions` (populate_db.py:273-277). */
  function RegionCands(ss: seq<StageRegion>): set<(int, Region)> {
    set s | s in ss :: (s.regionId, Region(s.region))
  }

  /** stage_countries joined to Region on the region name (populate_db.py:279-288). */
  function CountryCands(ss: seq<StageCountry>, regions: map<int, Region>): (r: set<(int, Country)>)
    ensures forall p :: p in r ==> p.1.regionId in regions
  {
    set s, rid | s in ss && rid in regions && regions[rid].region == s.region ::
      (s.countryId, Country(s.country, rid))
  }

  /** `SELECT ... FROM stage_productcategories` (populate_db.py:290-295). */
  function CategoryCands(ss: seq<StageCategory>): set<(int, ProductCategory)> {
    set s | s in ss :: (s.categoryId, ProductCategory(s.category, s.description))
  }

  /** stage_customers joined to Country on the country name alone (populate_db.py:305-316). */
  function CustomerCands(ss: seq<StageCustomer>, countries: map<int, Country>): (r: set<(int, Customer)>)
    ensures forall p :: p in r ==> p.1.countryId in countries
  {
    set s, cid | s in ss && cid in countries && countries[cid].country == s.country ::
      (s.customerId, Customer(s.firstName, s.lastName, s.address, s.city, cid))
  }

  /** stage_products joined to ProductCategory on the category name alone (populate_db.py:318-328). */
  function ProductCands(ss: seq<StageProduct>, categories: map<int, ProductCategory>): (r: set<(int, Product)>)
    ensures forall p :: p in r ==> p.1.categoryId in categories
  {
    set s, pcid | s in ss && pcid in categories && categories[pcid].category == s.category ::
      (s.productId, Product(s.productName, s.unitPrice, pcid))
  }

  /**
   * `TRIM(c.FirstName || ' ' || c.LastName) = TRIM(so.CustomerName)`
   * (populate_db.py:346).  A customer whose name has the split's shape has a
   * normalized full name, so a stripped order name with any
   * inner whitespace other than single spaces (a tab, a newline, a run of spaces) matches no such customer.
   */
  predicate NameMatches(c: Customer, customerName: string): (b: bool)
    ensures SplitShaped(c.firstName, c.lastName) && Stripped(customerName) && !Normalized(customerName) ==> !b
  {
    TrimmedNames(c, customerName);
    SqlTrim(c.firstName + " " + c.lastName) == SqlTrim(customerName)
  }

  /** The two sides of the name join, for a split-shaped customer and a stripped order name. */
  lemma TrimmedNames(c: Customer, customerName: string)
    ensures SplitShaped(c.firstName, c.lastName) ==> Normalized(SqlTrim(c.firstName + " " + c.lastName))
    ensures Stripped(customerName) ==> SqlTrim(customerName) == customerName
  {
    if SplitShaped(c.firstName, c.lastName) {
      FullNameNormalized(c.firstName, c.lastName);
    }
    if Stripped(customerName) {
      SqlTrimKeeps(customerName);
    }
  }

  /**
   * stage_orderdetails joined to Customer on the trimmed full name and to
   * Product on the product name (populate_db.py:337-349).
   */
  function OrderCands(ss: seq<StageOrder>, customers: map<int, Customer>, products: map<int, Product>)
    : (r: set<(int, OrderDetail)>)
    ensures forall p :: p in r ==> p.1.customerId in customers && p.1.productId in products
  {
    set s, cid, pid | s in ss && cid in customers && pid in products &&
      NameMatches(customers[cid], s.customerName) && products[pid].productName == s.productName ::
      (s.orderId, OrderDetail(cid, pid, s.orderDate, s.quantity))
  }

  // ---------------------------------------------------------------------------
  // What each candidate is
  // ---------------------------------------------------------------------------

  /** A country candidate comes from a staging country whose region name is that of its RegionID. */
  lemma CountryCandsMatch(ss: seq<StageCountry>, regions: map<int, Region>, k: int, c: Country)
    ensures (k, c) in CountryCands(ss, regions) <==>
      c.regionId in regions &&
      exists s :: s in ss && s.countryId == k && s.country == c.country && regions[c.regionId].region == s.region
  {
    if c.regionId in regions && exists s :: s in ss && s.countryId == k && s.country == c.country && regions[c.regionId].region == s.region {
      var s :| s in ss && s.countryId == k && s.country == c.country && regions[c.regionId].region == s.region;
      assert (s.countryId, Country(s.country, c.regionId)) in CountryCands(ss, regions);
    }
  }

  /** A customer candidate comes from a staging customer whose country name is that of its CountryID. */
  lemma CustomerCandsMatch(ss: seq<StageCustomer>, countries: map<int, Country>, k: int, c: Customer)
    ensures (k, c) in CustomerCands(ss, countries) <==>
      c.countryId in countries &&
      exists s :: s in ss && s.customerId == k && countries[c.countryId].country == s.country &&
        c == Customer(s.firstName, s.lastName, s.address, s.city, c.countryId)
  {
    if c.countryId in countries &&
      exists s :: s in ss && s.customerId == k && countries[c.countryId].country == s.country &&
        c == Customer(s.firstName, s.lastName, s.address, s.city, c.countryId)
    {
      var s :| s in ss && s.customerId == k && countries[c.countryId].country == s.country &&
        c == Customer(s.firstName, s.lastName, s.address, s.city, c.countryId);
      assert (s.customerId, Customer(s.firstName, s.lastName, s.address, s.city, c.countryId)) in CustomerCands(ss, countries);
    }
  }

  /** A product candidate comes from a staging product whose category name is that of its ProductCategoryID. */
  lemma ProductCandsMatch(ss: seq<StageProduct>, categories: map<int, ProductCategory>, k: int, p: Product)
    ensures (k, p) in ProductCands(ss, categories) <==>
      p.categoryId in categories &&
      exists s :: s in ss && s.productId == k && categories[p.categoryId].category == s.category &&
        p == Product(s.productName, s.unitPrice, p.categoryId)
  {
    if p.categoryId in categories &&
      exists s :: s in ss && s.productId == k && categories[p.categoryId].category == s.category &&
        p == Product(s.productName, s.unitPrice, p.categoryId)
    {
      var s :| s in ss && s.productId == k && categories[p.categoryId].category == s.category &&
        p == Product(s.productName, s.unitPrice, p.categoryId);
      assert (s.productId, Product(s.productName, s.unitPrice, p.categoryId)) in ProductCands(ss, categories);
    }
  }

  /**
   * An order candidate comes from a staging order whose customer name matches
   * its customer's trimmed full name and whose product name is its product's.
   */
  lemma OrderCandsMatch(ss: seq<StageOrder>, customers: map<int, Customer>, products: map<int, Product>,
                        k: int, o: OrderDetail)
    ensures (k, o) in OrderCands(ss, customers, products) <==>
      o.customerId in customers && o.productId in products &&
      exists s :: s in ss && s.orderId == k &&
        NameMatches(customers[o.customerId], s.customerName) &&
        products[o.productId].productName == s.productName &&
        o == OrderDetail(o.customerId, o.productId, s.orderDate, s.quantity)
  {
    if o.customerId in customers && o.productId in products &&
      exists s :: s in ss && s.orderId == k &&
        NameMatches(customers[o.customerId], s.customerName) &&
        products[o.productId].productName == s.productName &&
        o == OrderDetail(o.customerId, o.productId, s.orderDate, s.quantity)
    {
      var s :| s in ss && s.orderId == k &&
        NameMatches(customers[o.customerId], s.customerName) &&
        products[o.productId].productName == s.productName &&
        o == OrderDetail(o.customerId, o.productId, s.orderDate, s.quantity);
      assert (s.orderId, OrderDetail(o.customerId, o.productId, s.orderDate, s.quantity)) in OrderCands(ss, customers, products);
    }
  }

  // ---------------------------------------------------------------------------
  // The three steps
  // ---------------------------------------------------------------------------

  /**
   * `build_dimensions` (populate_db.py:270-298): regions, then countries
   * joined against the Region table as it stands after the first insert, then
   * categories.  The other tables are untouched.
   */
  ghost predicate DimensionsStep(st: Staging, t: Tables, t2: Tables) {
    InsertedSkipping(t.region, RegionCands(st.regions), t2.region) &&
    InsertedSkipping(t.country, CountryCands(st.countries, t2.region), t2.country) &&
    InsertedSkipping(t.category, CategoryCands(st.categories), t2.category) &&
    t2.customer == t.customer && t2.product == t.product && t2.order == t.order
  }

  /** `load_entities` (populate_db.py:301-331): customers, then products. */
  ghost predicate EntitiesStep(st: Staging, t: Tables, t2: Tables) {
    InsertedSkipping(t.customer, CustomerCands(st.customers, t.country), t2.customer) &&
    InsertedSkipping(t.product, ProductCands(st.products, t.category), t2.product) &&
    t2.region == t.region && t2.country == t.country && t2.category == t.category && t2.order == t.order
  }

  /** `build_facts` (populate_db.py:334-352): order details. */
  ghost predicate FactsStep(st: Staging, t: Tables, t2: Tables) {
    InsertedSkipping(t.order, OrderCands(st.orders, t.customer, t.product), t2.order) &&
    t2.region == t.region && t2.country == t.country && t2.customer == t.customer &&
    t2.category == t.category && t2.product == t.product
  }

  // ---------------------------------------------------------------------------
  // Every added row matches its parent by name
  // ---------------------------------------------------------------------------

  /** Each country `build_dimensions` adds comes from a staging country whose region name is its region's. */
  lemma DimensionsMatch(st: Staging, t: Tables, t2: Tables)
    requires DimensionsStep(st, t, t2)
    ensures forall k :: k in t2.country && k !in t.country ==>
      t2.country[k].regionId in t2.region &&
      exists s :: s in st.countries && s.countryId == k && s.country == t2.country[k].country &&
        t2.region[t2.country[k].regionId].region == s.region
  {
    forall k | k in t2.country && k !in t.country
      ensures t2.country[k].regionId in t2.region &&
        exists s :: s in st.countries && s.countryId == k && s.country == t2.country[k].country &&
          t2.region[t2.country[k].regionId].region == s.region
    {
      CountryCandsMatch(st.countries, t2.region, k, t2.country[k]);
    }
  }

  /**
   * Each customer and product `load_entities` adds comes from a staging row
   * whose country (category) name is that of its parent.
   */
  lemma EntitiesMatch(st: Staging, t: Tables, t2: Tables)
    requires EntitiesStep(st, t, t2)
    ensures forall k :: k in t2.customer && k !in t.customer ==>
      t2.customer[k].countryId in t2.country &&
      exists s :: s in st.customers && s.customerId == k &&
        t2.country[t2.customer[k].countryId].country == s.country
    ensures forall k :: k in t2.product && k !in t.product ==>
      t2.product[k].categoryId in t2.category &&
      exists s :: s in st.products && s.productId == k &&
        t2.category[t2.product[k].categoryId].category == s.category
  {
    forall k | k in t2.customer && k !in t.customer
      ensures t2.customer[k].countryId in t2.country &&
        exists s :: s in st.customers && s.customerId == k &&
          t2.country[t2.customer[k].countryId].country == s.country
    {
      CustomerCandsMatch(st.customers, t.country, k, t2.customer[k]);
    }
    forall k | k in t2.product && k !in t.product
      ensures t2.product[k].categoryId in t2.category &&
        exists s :: s in st.products && s.productId == k &&
          t2.category[t2.product[k].categoryId].category == s.category
    {
      ProductCandsMatch(st.products, t.category, k, t2.product[k]);
    }
  }

  /**
   * Each order `build_facts` adds comes from a staging order whose customer
   * name matches its customer's trimmed full name and whose product name is
   * its product's.
   */
  lemma FactsMatch(st: Staging, t: Tables, t2: Tables)
    requires FactsStep(st, t, t2)
    ensures forall k :: k in t2.order && k !in t.order ==>
      t2.order[k].customerId in t2.customer && t2.order[k].productId in t2.product &&
      exists s :: s in st.orders && s.orderId == k &&
        NameMatches(t2.customer[t2.order[k].customerId], s.customerName) &&
        t2.product[t2.order[k].productId].productName == s.productName
  {
    forall k | k in t2.order && k !in t.order
      ensures t2.order[k].customerId in t2.customer && t2.order[k].productId in t2.product &&
        exists s :: s in st.orders && s.orderId == k &&
          NameMatches(t2.customer[t2.order[k].customerId], s.customerName) &&
          t2.product[t2.order[k].productId].productName == s.productName
    {
      OrderCandsMatch(st.orders, t.customer, t.product, k, t2.order[k]);
    }
  }

  /**
   * A line with both a customer and an order: once its customer row is in
   * Customer, the order join finds that row exactly when the raw name is
   * normalized (single spaces between words), since the loader stored the
   * name split into words but the order keeps the name as written.
   */
  lemma SameLineNameJoin(c: Stage.CleanRow, customerId: int, orderId: int, countryId: int)
    requires c.HasCustomer() && Stripped(c.name) && c.dateInt.Some? && c.quantityInt.Some?
    ensures var sc := Stage.CustomerOf(customerId, c);
      NameMatches(Customer(sc.firstName, sc.lastName, sc.address, sc.city, countryId),
                  Stage.OrderOf(orderId, c).customerName)
      <==> Normalized(c.name)
  {
    SplitNameRejoins(c.name);
  }

  // ---------------------------------------------------------------------------
  // Referential integrity
  // ---------------------------------------------------------------------------

  lemma DimensionsKeepIntegrity(st: Staging, t: Tables, t2: Tables)
    requires RefIntegrity(t) && DimensionsStep(st, t, t2)
    ensures RefIntegrity(t2)
  {
    forall k | k in t2.country ensures t2.country[k].regionId in t2.region {
      if k !in t.country {
        CountryCandsMatch(st.countries, t2.region, k, t2.country[k]);
      }
    }
  }

  lemma EntitiesKeepIntegrity(st: Staging, t: Tables, t2: Tables)
    requires RefIntegrity(t) && EntitiesStep(st, t, t2)
    ensures RefIntegrity(t2)
  {
    forall k | k in t2.customer ensures t2.customer[k].countryId in t2.country {
      if k !in t.customer {
        CustomerCandsMatch(st.customers, t.country, k, t2.customer[k]);
      }
    }
    forall k | k in t2.product ensures t2.product[k].categoryId in t2.category {
      if k !in t.product {
        ProductCandsMatch(st.products, t.category, k, t2.product[k]);
      }
    }
  }

  lemma FactsKeepIntegrity(st: Staging, t: Tables, t2: Tables)
    requires RefIntegrity(t) && FactsStep(st, t, t2)
    ensures RefIntegrity(t2)
  {
    forall k | k in t2.order
      ensures t2.order[k].customerId in t2.customer && t2.order[k].productId in t2.product
    {
      if k !in t.order {
        OrderCandsMatch(st.orders, t.customer, t.product, k, t2.order[k]);
      }
    }
  }

  /** Starting from the empty tables of `create_tables`, the three steps leave every foreign key resolved. */
  lemma PipelineIntegrity(st: Staging, t1: Tables, t2: Tables, t3: Tables)
    requires DimensionsStep(st, EmptyTables, t1) && EntitiesStep(st, t1, t2) && FactsStep(st, t2, t3)
    ensures RefIntegrity(t1) && RefIntegrity(t2) && RefIntegrity(t3)
  {
    DimensionsKeepIntegrity(st, EmptyTables, t1);
    EntitiesKeepIntegrity(st, t1, t2);
    FactsKeepIntegrity(st, t2, t3);
  }

  // ---------------------------------------------------------------------------
  // Re-running a step
  // ---------------------------------------------------------------------------

  /** Re-running `build_dimensions` on the same staging data changes nothing. */
  lemma DimensionsIdempotent(st: Staging, t: Tables, t2: Tables, t3: Tables)
    requires DimensionsStep(st, t, t2) && DimensionsStep(st, t2, t3)
    ensures t3 == t2
  {
    InsertIdempotent(t.region, RegionCands(st.regions), t2.region, t3.region);
    InsertIdempotent(t.country, CountryCands(st.countries, t2.region), t2.country, t3.country);
    InsertIdempotent(t.category, CategoryCands(st.categories), t2.category, t3.category);
  }

  /** Re-running `load_entities` on the same staging data changes nothing. */
  lemma EntitiesIdempotent(st: Staging, t: Tables, t2: Tables, t3: Tables)
    requires EntitiesStep(st, t, t2) && EntitiesStep(st, t2, t3)
    ensures t3 == t2
  {
    InsertIdempotent(t.customer, CustomerCands(st.customers, t.country), t2.customer, t3.customer);
    InsertIdempotent(t.product, ProductCands(st.products, t.category), t2.product, t3.product);
  }

  /** Re-running `build_facts` on the same staging data changes nothing. */
  lemma FactsIdempotent(st: Staging, t: Tables, t2: Tables, t3: Tables)
    requires FactsStep(st, t, t2) && FactsStep(st, t2, t3)
    ensures t3 == t2
  {
    InsertIdempotent(t.order, OrderCands(st.orders, t.customer, t.product), t2.order, t3.order);
  }

  // ---------------------------------------------------------------------------
  // Unmatched rows are dropped
  // ---------------------------------------------------------------------------

  /**
   * A staging country whose region name is in no Region row yields no
   * candidate, so unless another staging country shares its key, its key is
   * absent afterwards exactly when it was absent before.
   */
  lemma UnmatchedCountryDropped(st: Staging, t: Tables, t2: Tables, s: StageCountry)
    requires DimensionsStep(st, t, t2)
    requires s in st.countries && forall rid :: rid in t2.region ==> t2.region[rid].region != s.region
    requires forall s' :: s' in st.countries && s'.countryId == s.countryId ==> s' == s
    ensures s.countryId in t2.country <==> s.countryId in t.country
  {
    if s.countryId in t2.country && s.countryId !in t.country {
      CountryCandsMatch(st.countries, t2.region, s.countryId, t2.country[s.countryId]);
    }
  }

  /**
   * An order is dropped when no customer's trimmed full name equals its
   * trimmed customer name.
   */
  lemma UnmatchedOrderDropped(st: Staging, t: Tables, t2: Tables, s: StageOrder)
    requires FactsStep(st, t, t2)
    requires s in st.orders && forall cid :: cid in t.customer ==> !NameMatches(t.customer[cid], s.customerName)
    requires forall s' :: s' in st.orders && s'.orderId == s.orderId ==> s' == s
    ensures s.orderId in t2.order <==> s.orderId in t.order
  {
    if s.orderId in t2.order && s.orderId !in t.order {
      OrderCandsMatch(st.orders, t.customer, t.product, s.orderId, t2.order[s.orderId]);
    }
  }

  // ---------------------------------------------------------------------------
  // Names with inner whitespace runs never reach OrderDetail
  // ---------------------------------------------------------------------------

  /** Every customer's name has the shape the loader's split gives it. */
  predicate NamesSplit(customers: map<int, Customer>) {
    forall cid :: cid in customers ==> SplitShaped(customers[cid].firstName, customers[cid].lastName)
  }

  /** `load_entities` adds only customers built from staging rows, so it keeps every name split-shaped. */
  lemma EntitiesKeepNamesSplit(st: Staging, t: Tables, t2: Tables)
    requires forall j :: 0 <= j < |st.customers| ==> SplitShaped(st.customers[j].firstName, st.customers[j].lastName)
    requires NamesSplit(t.customer) && EntitiesStep(st, t, t2)
    ensures NamesSplit(t2.customer)
  {
    forall k | k in t2.customer && k !in t.customer
      ensures SplitShaped(t2.customer[k].firstName, t2.customer[k].lastName)
    {
      CustomerCandsMatch(st.customers, t.country, k, t2.customer[k]);
      var s :| s in st.customers && s.customerId == k && t.country[t2.customer[k].countryId].country == s.country &&
        t2.customer[k] == Customer(s.firstName, s.lastName, s.address, s.city, t2.customer[k].countryId);
      var j :| 0 <= j < |st.customers| && st.customers[j] == s;
    }
  }

  /**
   * A stripped order name with any inner whitespace other than single spaces matches no
   * customer whose name is split-shaped, so `build_facts` drops the order:
   * unless another staging order shares its key, its key is absent
   * afterwards exactly when it was absent before.
   */
  lemma UnnormalizedOrderDropped(st: Staging, t: Tables, t2: Tables, s: StageOrder)
    requires FactsStep(st, t, t2) && NamesSplit(t.customer)
    requires s in st.orders && Stripped(s.customerName) && !Normalized(s.customerName)
    requires forall s' :: s' in st.orders && s'.orderId == s.orderId ==> s' == s
    ensures s.orderId in t2.order <==> s.orderId in t.order
  {
    forall cid | cid in t.customer ensures !NameMatches(t.customer[cid], s.customerName) {
      assert SplitShaped(t.customer[cid].firstName, t.customer[cid].lastName);
    }
    UnmatchedOrderDropped(st, t, t2, s);
  }

  /**
   * The whole pipeline from the empty tables, on the staging relations a
   * clean load of the lines `cs` leaves: an order whose customer name has
   * any inner whitespace other than single spaces never reaches OrderDetail.
   */
  lemma PipelineDropsUnnormalizedOrders(cs: seq<Stage.CleanRow>, st: Staging, t1: Tables, t2: Tables, t3: Tables,
                                        s: StageOrder)
    requires Stage.Checked(cs) && st.customers == Stage.Customers(cs) && st.orders == Stage.Orders(cs)
    requires DimensionsStep(st, EmptyTables, t1) && EntitiesStep(st, t1, t2) && FactsStep(st, t2, t3)
    requires s in st.orders && !Normalized(s.customerName)
    ensures s.orderId !in t3.order
  {
    Stage.StagedNames(cs);
    EntitiesKeepNamesSplit(st, t1, t2);
    UnnormalizedOrderDropped(st, t2, t3, s);
  }
}
