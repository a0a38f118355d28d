/**
 * The row-to-staging transformation of `load_tsv_to_stage`
 * (populate_db.py:148-267): the header check, the cleaning of every field,
 * the filters that decide which staging relation a row feeds, the customer
 * name split, the dedup sets numbered in sorted order, and the customer and
 * order rows numbered in input order.
 *
 * The input starts after the file has been opened and split into fields: an
 * optional header (None when the file has no header line) and one map per
 * data line from column name to field text.  A column of the header that is
 * absent from a row's map is a field the line did not supply, which
 * `csv.DictReader` reports as None.
 */
module Stage {
  import opened Wrappers
  import opened Text
  import opened Ordering
  import opened Schema

  type Row = map<string, string>

  /** The required columns, spelled as in the source (note "QuantityOrderded"). */
  const ExpectedColumns: seq<string> := [
    "Name", "Address", "City", "Country", "Region", "ProductName", "ProductCategory",
    "ProductCategoryDescription", "ProductUnitPrice", "QuantityOrderded", "OrderDate"
  ]

  /** Why a data line stops the load. */
  datatype RowFault =
    | ShortRow                    // a required field is None: `.strip()` raises AttributeError
    | NotAnInteger(token: string) // `int(token)` raises ValueError

  datatype LoadError =
    | NoHeader                             // the file has no header line
    | MissingColumns(columns: seq<string>) // populate_db.py:156-158
    | RowError(row: nat, fault: RowFault)  // 0-based index of the data line that failed
    | PriceNotAFloat                       // `float()` raises on a price token, or REAL cannot hold it (populate_db.py:257)
    | IntegerOutOfRange                    // an order's date or quantity overflows INTEGER (populate_db.py:70-71)

  /**
   * One data line after cleaning (populate_db.py:181-198).  `dateInt` and
   * `quantityInt` are what `int()` gives for the date and quantity tokens, None
   * where it raises; they are consulted only for an order line (:230-231).
   */
  datatype CleanRow = CleanRow(
    name: string, address: string, city: string, country: string, region: string,
    productName: string, category: string, description: string,
    price: string, quantity: string, date: string,
    dateInt: Option<int>, quantityInt: Option<int>)
  {
    predicate HasRegion() { region != "" }
    predicate HasCountry() { country != "" && region != "" }
    predicate HasCustomer() { name != "" }
    predicate HasCategory() { category != "" && description != "" }
    predicate HasProduct() { productName != "" && price != "" }
    predicate HasOrder() { productName != "" && quantity != "" && date != "" }
  }

  // ---------------------------------------------------------------------------
  // Header check
  // ---------------------------------------------------------------------------

  /** `sorted(set(expected) - set(header))`. */
  function MissingFrom(expected: seq<string>, header: seq<string>): (r: seq<string>)
    ensures forall c :: c in r <==> c in expected && c !in header
    ensures forall i, j :: 0 <= i < j < |r| ==> StrLess(r[i], r[j])
    ensures r == [] <==> forall c :: c in expected ==> c in header
  {
    var r := SortedNames(set c | c in expected && c !in header);
    assert r != [] ==> r[0] in expected && r[0] !in header;
    r
  }

  // ---------------------------------------------------------------------------
  // Cleaning one line
  // ---------------------------------------------------------------------------

  /** The line supplied every required field (the header check has already put them in the header). */
  predicate Complete(row: Row) {
    "Name" in row && "Address" in row && "City" in row && "Country" in row && "Region" in row &&
    "ProductName" in row && "ProductCategory" in row && "ProductCategoryDescription" in row &&
    "ProductUnitPrice" in row && "QuantityOrderded" in row && "OrderDate" in row
  }

  lemma CompleteIsExpected(row: Row)
    ensures Complete(row) <==> forall c :: c in ExpectedColumns ==> c in row
  {
  }

  /** Every field stripped; price, quantity and date cut at their first ';'. */
  function Clean(row: Row): (c: CleanRow)
    requires Complete(row)
    ensures Stripped(c.name)
    ensures c.dateInt.Some? <==> IsIntLiteral(c.date)
    ensures c.quantityInt.Some? <==> IsIntLiteral(c.quantity)
  {
    var quantity := FieldToken(Strip(row["QuantityOrderded"]));
    var date := FieldToken(Strip(row["OrderDate"]));
    CleanRow(
      Strip(row["Name"]), Strip(row["Address"]), Strip(row["City"]), Strip(row["Country"]),
      Strip(row["Region"]), Strip(row["ProductName"]), Strip(row["ProductCategory"]),
      Strip(row["ProductCategoryDescription"]),
      FieldToken(Strip(row["ProductUnitPrice"])), quantity, date,
      ParseInt(date), ParseInt(quantity))
  }

  /** The token rules hold for every cleaned line: no ';' in them, and each is a prefix of its stripped field. */
  lemma CleanTokens(row: Row)
    requires Complete(row)
    ensures ';' !in Clean(row).price && ';' !in Clean(row).quantity && ';' !in Clean(row).date
    ensures Clean(row).price <= Strip(row["ProductUnitPrice"])
    ensures Clean(row).quantity <= Strip(row["QuantityOrderded"])
    ensures Clean(row).date <= Strip(row["OrderDate"])
  {
    FieldTokenShape(Strip(row["ProductUnitPrice"]));
    FieldTokenShape(Strip(row["QuantityOrderded"]));
    FieldTokenShape(Strip(row["OrderDate"]));
  }

  /** An order line whose date and quantity both convert. */
  predicate OrderConverts(c: CleanRow) {
    c.HasOrder() ==> c.dateInt.Some? && c.quantityInt.Some?
  }

  /**
   * What one data line does to the load: a fault, or the cleaned line.  An
   * order line's date is converted before its quantity (populate_db.py:231).
   */
  function CheckRow(row: Row): (r: Result<CleanRow, RowFault>)
    ensures r.Ok? <==> Complete(row) && OrderConverts(Clean(row))
    ensures r.Ok? ==> r.value == Clean(row)
    ensures r.Err? ==> (r.error.ShortRow? <==> !Complete(row))
    ensures r.Err? && r.error.NotAnInteger? ==>
      Complete(row) && Clean(row).HasOrder() &&
      r.error.token == if !IsIntLiteral(Clean(row).date) then Clean(row).date else Clean(row).quantity
  {
    if !Complete(row) then Err(ShortRow)
    else
      var c := Clean(row);
      if c.HasOrder() && c.dateInt.None? then Err(NotAnInteger(c.date))
      else if c.HasOrder() && c.quantityInt.None? then Err(NotAnInteger(c.quantity))
      else Ok(c)
  }

  /** No data line makes the load raise. */
  predicate AllRowsOk(rows: seq<Row>) {
    forall j :: 0 <= j < |rows| ==> CheckRow(rows[j]).Ok?
  }

  /** The cleaned data lines of a load that does not raise. */
  function CleanRows(rows: seq<Row>): (cs: seq<CleanRow>)
    requires AllRowsOk(rows)
    ensures |cs| == |rows| && Checked(cs)
  {
    seq(|rows|, j requires 0 <= j < |rows| => CheckRow(rows[j]).value)
  }

  /** The cleaned lines `cs` are what the first |cs| data lines give. */
  predicate CleanPrefix(rows: seq<Row>, cs: seq<CleanRow>) {
    |cs| <= |rows| && forall j :: 0 <= j < |cs| ==> CheckRow(rows[j]) == Ok(cs[j])
  }

  lemma CleanPrefixSnoc(rows: seq<Row>, cs: seq<CleanRow>, c: CleanRow)
    requires CleanPrefix(rows, cs) && |cs| < |rows| && CheckRow(rows[|cs|]) == Ok(c)
    ensures CleanPrefix(rows, cs + [c])
  {
    var ds := cs + [c];
    forall j | 0 <= j < |ds| ensures CheckRow(rows[j]) == Ok(ds[j]) {
      if j < |cs| {
        assert ds[j] == cs[j];
      } else {
        assert ds[j] == c;
      }
    }
  }

  lemma CleanPrefixFull(rows: seq<Row>, cs: seq<CleanRow>)
    requires CleanPrefix(rows, cs) && |cs| == |rows|
    ensures AllRowsOk(rows) && CleanRows(rows) == cs
  {
  }

  /** Every name was stripped, as `Clean` leaves it. */
  predicate NamesStripped(cs: seq<CleanRow>) {
    forall c :: c in cs ==> Stripped(c.name)
  }

  /** Every order line converted, as `CheckRow` lets it through. */
  predicate OrdersConvert(cs: seq<CleanRow>) {
    forall c :: c in cs ==> OrderConverts(c)
  }

  /** Lines as `CheckRow` lets them through. */
  predicate Checked(cs: seq<CleanRow>) {
    NamesStripped(cs) && OrdersConvert(cs)
  }

  // ---------------------------------------------------------------------------
  // The dedup sets (populate_db.py:200-207, 221-227)
  // ---------------------------------------------------------------------------

  /** The distinct non-empty regions, as one-element tuples (`region_set`). */
  function RegionSet(cs: seq<CleanRow>): (s: set<Tuple>)
    ensures forall t :: t in s ==> |t| == 1 && t[0] != ""
  {
    if cs == [] then {}
    else
      var last := cs[|cs| - 1];
      RegionSet(cs[..|cs| - 1]) + (if last.HasRegion() then {[last.region]} else {})
  }

  /** The set holds exactly the tuples of the lines that qualify, each once. */
  lemma {:induction false} RegionSetMembers(cs: seq<CleanRow>)
    ensures forall t :: t in RegionSet(cs) <==> exists x :: x in cs && x.HasRegion() && t == [x.region]
  {
    if cs != [] {
      var init := cs[..|cs| - 1];
      RegionSetMembers(init);
      assert cs == init + [cs[|cs| - 1]];
    }
  }

  /** The distinct (country, region) pairs with both parts non-empty (`country_set`). */
  function CountrySet(cs: seq<CleanRow>): (s: set<Tuple>)
    ensures forall t :: t in s ==> |t| == 2 && t[0] != "" && t[1] != ""
  {
    if cs == [] then {}
    else
      var last := cs[|cs| - 1];
      CountrySet(cs[..|cs| - 1]) + (if last.HasCountry() then {[last.country, last.region]} else {})
  }

  /** The set holds exactly the tuples of the lines that qualify, each once. */
  lemma {:induction false} CountrySetMembers(cs: seq<CleanRow>)
    ensures forall t :: t in CountrySet(cs) <==> exists x :: x in cs && x.HasCountry() && t == [x.country, x.region]
  {
    if cs != [] {
      var init := cs[..|cs| - 1];
      CountrySetMembers(init);
      assert cs == init + [cs[|cs| - 1]];
    }
  }

  /** The distinct (category, description) pairs with both parts non-empty (`category_set`). */
  function CategorySet(cs: seq<CleanRow>): (s: set<Tuple>)
    ensures forall t :: t in s ==> |t| == 2 && t[0] != "" && t[1] != ""
  {
    if cs == [] then {}
    else
      var last := cs[|cs| - 1];
      CategorySet(cs[..|cs| - 1]) + (if last.HasCategory() then {[last.category, last.description]} else {})
  }

  /** The set holds exactly the tuples of the lines that qualify, each once. */
  lemma {:induction false} CategorySetMembers(cs: seq<CleanRow>)
    ensures forall t :: t in CategorySet(cs) <==> exists x :: x in cs && x.HasCategory() && t == [x.category, x.description]
  {
    if cs != [] {
      var init := cs[..|cs| - 1];
      CategorySetMembers(init);
      assert cs == init + [cs[|cs| - 1]];
    }
  }

  /** The distinct (product name, price token, category) triples; the category may be empty (`product_set`). */
  function ProductSet(cs: seq<CleanRow>): (s: set<Tuple>)
    ensures forall t :: t in s ==> |t| == 3 && t[0] != "" && t[1] != ""
  {
    if cs == [] then {}
    else
      var last := cs[|cs| - 1];
      ProductSet(cs[..|cs| - 1]) + (if last.HasProduct() then {[last.productName, last.price, last.category]} else {})
  }

  /** The set holds exactly the tuples of the lines that qualify, each once. */
  lemma {:induction false} ProductSetMembers(cs: seq<CleanRow>)
    ensures forall t :: t in ProductSet(cs) <==> exists x :: x in cs && x.HasProduct() && t == [x.productName, x.price, x.category]
  {
    if cs != [] {
      var init := cs[..|cs| - 1];
      ProductSetMembers(init);
      assert cs == init + [cs[|cs| - 1]];
    }
  }

  // ---------------------------------------------------------------------------
  // The customer and order lists (populate_db.py:208-219, 229-232)
  // ---------------------------------------------------------------------------

  /** The lines with a customer name, in input order. */
  function NamedRows(cs: seq<CleanRow>): (r: seq<CleanRow>)
    ensures forall j :: 0 <= j < |r| ==> r[j] in cs && r[j].HasCustomer()
    ensures |r| <= |cs|
  {
    if cs == [] then []
    else
      var last := cs[|cs| - 1];
      NamedRows(cs[..|cs| - 1]) + (if last.HasCustomer() then [last] else [])
  }

  /** The lines with a product name, a quantity and a date, in input order. */
  function OrderRows(cs: seq<CleanRow>): (r: seq<CleanRow>)
    ensures forall j :: 0 <= j < |r| ==> r[j] in cs && r[j].HasOrder()
    ensures |r| <= |cs|
  {
    if cs == [] then []
    else
      var last := cs[|cs| - 1];
      OrderRows(cs[..|cs| - 1]) + (if last.HasOrder() then [last] else [])
  }

  /** The named lines are exactly the input lines with a customer name. */
  lemma {:induction false} NamedRowsMembers(cs: seq<CleanRow>)
    ensures forall c :: c in NamedRows(cs) <==> c in cs && c.HasCustomer()
  {
    if cs != [] {
      var init := cs[..|cs| - 1];
      NamedRowsMembers(init);
      assert cs == init + [cs[|cs| - 1]];
    }
  }

  /** The order lines are exactly the input lines with a product name, a quantity and a date. */
  lemma {:induction false} OrderRowsMembers(cs: seq<CleanRow>)
    ensures forall c :: c in OrderRows(cs) <==> c in cs && c.HasOrder()
  {
    if cs != [] {
      var init := cs[..|cs| - 1];
      OrderRowsMembers(init);
      assert cs == init + [cs[|cs| - 1]];
    }
  }

  /** The staging customer a named line produces: populate_db.py:210-218. */
  function CustomerOf(id: int, c: CleanRow): (r: StageCustomer)
    requires c.HasCustomer() && Stripped(c.name)
  {
    assert !AllWs(c.name) by { assert !IsWs(c.name[0]); }
    var (first, last) := SplitName(c.name);
    StageCustomer(id, first, last, c.address, c.city, c.country)
  }

  /** The staging order an order line produces: populate_db.py:231. */
  function OrderOf(id: int, c: CleanRow): (r: StageOrder)
    requires c.dateInt.Some? && c.quantityInt.Some?
  {
    StageOrder(id, c.name, c.productName, c.dateInt.value, c.quantityInt.value)
  }

  /** `customer_set`: one customer per named line, numbered on from 1. */
  function Customers(cs: seq<CleanRow>): (r: seq<StageCustomer>)
    requires NamesStripped(cs)
  {
    if cs == [] then []
    else
      var init := cs[..|cs| - 1];
      var last := cs[|cs| - 1];
      assert last in cs;
      var before := Customers(init);
      before + (if last.HasCustomer() then [CustomerOf(|before| + 1, last)] else [])
  }

  /** `order_set`: one order per order line, numbered on from 1. */
  function Orders(cs: seq<CleanRow>): (r: seq<StageOrder>)
    requires OrdersConvert(cs)
  {
    if cs == [] then []
    else
      var init := cs[..|cs| - 1];
      var last := cs[|cs| - 1];
      assert last in cs;
      var before := Orders(init);
      before + (if last.HasOrder() then [OrderOf(|before| + 1, last)] else [])
  }

  /**
   * Customer ids are exactly 1..n in input order, where n is the number of
   * named lines, and the j-th customer is built from the j-th named line.
   */
  lemma {:induction false} CustomersNumbered(cs: seq<CleanRow>)
    requires NamesStripped(cs)
    ensures |Customers(cs)| == |NamedRows(cs)|
    ensures forall j :: 0 <= j < |Customers(cs)| ==>
      Customers(cs)[j] == CustomerOf(j + 1, NamedRows(cs)[j]) && Customers(cs)[j].customerId == j + 1
  {
    if cs != [] {
      CustomersNumbered(cs[..|cs| - 1]);
    }
  }

  /**
   * Order ids are exactly 1..n in input order, where n is the number of lines
   * with a product name, a quantity and a date, and the j-th order comes from
   * the j-th such line.
   */
  lemma {:induction false} OrdersNumbered(cs: seq<CleanRow>)
    requires OrdersConvert(cs)
    ensures |Orders(cs)| == |OrderRows(cs)|
    ensures forall j :: 0 <= j < |Orders(cs)| ==>
      Orders(cs)[j] == OrderOf(j + 1, OrderRows(cs)[j]) && Orders(cs)[j].orderId == j + 1
  {
    if cs != [] {
      OrdersNumbered(cs[..|cs| - 1]);
    }
  }

  /**
   * What the load stores for names: every staged customer's name is a first
   * word and a normalized rest, every staged order keeps its stripped name as
   * written, and no two staged orders share an id.
   */
  lemma StagedNames(cs: seq<CleanRow>)
    requires Checked(cs)
    ensures forall j :: 0 <= j < |Customers(cs)| ==> SplitShaped(Customers(cs)[j].firstName, Customers(cs)[j].lastName)
    ensures forall o :: o in Orders(cs) ==> Stripped(o.customerName)
    ensures forall o, o' :: o in Orders(cs) && o' in Orders(cs) && o.orderId == o'.orderId ==> o == o'
  {
    CustomersNumbered(cs);
    var os := Orders(cs);
    OrdersNumbered(cs);
    forall o | o in os ensures Stripped(o.customerName) {
      var j :| 0 <= j < |os| && os[j] == o;
      assert OrderRows(cs)[j] in cs;
    }
  }

  // ---------------------------------------------------------------------------
  // The scan loop (populate_db.py:170-232)
  // ---------------------------------------------------------------------------

  /** The Python locals the loop builds. */
  datatype Scan = Scan(
    regions: set<Tuple>, countries: set<Tuple>, customers: seq<StageCustomer>,
    categories: set<Tuple>, products: set<Tuple>, orders: seq<StageOrder>)

  function ScanOf(cs: seq<CleanRow>): Scan
    requires Checked(cs)
  {
    Scan(RegionSet(cs), CountrySet(cs), Customers(cs), CategorySet(cs), ProductSet(cs), Orders(cs))
  }

  lemma InSnoc(cs: seq<CleanRow>, c: CleanRow)
    ensures forall x :: x in cs + [c] <==> x in cs || x == c
  {
  }

  lemma RegionSetSnoc(cs: seq<CleanRow>, c: CleanRow)
    ensures RegionSet(cs + [c]) == RegionSet(cs) + (if c.HasRegion() then {[c.region]} else {})
  {
    assert (cs + [c])[..|cs|] == cs;
  }

  lemma CountrySetSnoc(cs: seq<CleanRow>, c: CleanRow)
    ensures CountrySet(cs + [c]) == CountrySet(cs) + (if c.HasCountry() then {[c.country, c.region]} else {})
  {
    assert (cs + [c])[..|cs|] == cs;
  }

  lemma CategorySetSnoc(cs: seq<CleanRow>, c: CleanRow)
    ensures CategorySet(cs + [c]) == CategorySet(cs) + (if c.HasCategory() then {[c.category, c.description]} else {})
  {
    assert (cs + [c])[..|cs|] == cs;
  }

  lemma ProductSetSnoc(cs: seq<CleanRow>, c: CleanRow)
    ensures ProductSet(cs + [c]) == ProductSet(cs) + (if c.HasProduct() then {[c.productName, c.price, c.category]} else {})
  {
    assert (cs + [c])[..|cs|] == cs;
  }

  lemma CustomersSnoc(cs: seq<CleanRow>, c: CleanRow)
    requires NamesStripped(cs) && Stripped(c.name)
    ensures NamesStripped(cs + [c])
    ensures Customers(cs + [c]) == Customers(cs) + (if c.HasCustomer() then [CustomerOf(|Customers(cs)| + 1, c)] else [])
  {
    var ds := cs + [c];
    InSnoc(cs, c);
    assert NamesStripped(ds);
    assert ds[..|ds| - 1] == cs && ds[|ds| - 1] == c;
  }

  lemma OrdersSnoc(cs: seq<CleanRow>, c: CleanRow)
    requires OrdersConvert(cs) && OrderConverts(c)
    ensures OrdersConvert(cs + [c])
    ensures Orders(cs + [c]) == Orders(cs) + (if c.HasOrder() then [OrderOf(|Orders(cs)| + 1, c)] else [])
  {
    var ds := cs + [c];
    InSnoc(cs, c);
    assert OrdersConvert(ds);
    assert ds[..|ds| - 1] == cs && ds[|ds| - 1] == c;
  }

  /**
   * The body of the loop of populate_db.py:199-232 for a line that does not
   * raise: the line's contributions to the dedup sets, its customer (with the
   * next customer id) and its order (with the next order id).
   */
  method AddLine(ghost cs: seq<CleanRow>, acc: Scan, customerId: int, orderId: int, c: CleanRow)
    returns (next: Scan, nextCustomerId: int, nextOrderId: int)
    requires Checked(cs) && Stripped(c.name) && OrderConverts(c)
    requires acc == ScanOf(cs)
    requires customerId == |acc.customers| + 1 && orderId == |acc.orders| + 1
    ensures Checked(cs + [c]) && next == ScanOf(cs + [c])
    ensures nextCustomerId == |next.customers| + 1 && nextOrderId == |next.orders| + 1
  {
    ghost var ds := cs + [c];
    assert acc.customers == Customers(cs) && acc.orders == Orders(cs);
    next, nextCustomerId, nextOrderId := acc, customerId, orderId;
    CustomersSnoc(cs, c);
    if c.HasCustomer() {
      next := next.(customers := next.customers + [CustomerOf(nextCustomerId, c)]);
      nextCustomerId := nextCustomerId + 1;
    }
    assert next.customers == Customers(ds);
    OrdersSnoc(cs, c);
    if c.HasOrder() {
      next := next.(orders := next.orders + [OrderOf(nextOrderId, c)]);
      nextOrderId := nextOrderId + 1;
    }
    assert next.orders == Orders(ds);
    RegionSetSnoc(cs, c);
    CountrySetSnoc(cs, c);
    CategorySetSnoc(cs, c);
    ProductSetSnoc(cs, c);
    next := next.(
      regions := next.regions + (if c.HasRegion() then {[c.region]} else {}),
      countries := next.countries + (if c.HasCountry() then {[c.country, c.region]} else {}),
      categories := next.categories + (if c.HasCategory() then {[c.category, c.description]} else {}),
      products := next.products + (if c.HasProduct() then {[c.productName, c.price, c.category]} else {}));
  }

  /**
   * The loop of populate_db.py:180-232 over the data lines: the dedup sets,
   * and the customers and orders numbered from 1 in input order; or the first
   * line that makes Python raise.  A line whose date or quantity does not
   * convert is rejected before its contributions are added; since the
   * exception abandons every local, the outcome is the same as adding them
   * first.
   */
  method ScanRows(rows: seq<Row>) returns (res: Result<Scan, LoadError>)
    ensures res.Ok? <==> AllRowsOk(rows)
    ensures res.Ok? ==> res.value == ScanOf(CleanRows(rows))
    ensures res.Err? ==>
      res.error.RowError? && res.error.row < |rows| &&
      CheckRow(rows[res.error.row]) == Err(res.error.fault) &&
      (forall j :: 0 <= j < res.error.row ==> CheckRow(rows[j]).Ok?)
  {
    var acc := Scan({}, {}, [], {}, {}, []);
    var orderId := 1;
    var customerId := 1;
    ghost var cs: seq<CleanRow> := [];
    var i := 0;
    while i < |rows|
      invariant 0 <= i <= |rows| && |cs| == i
      invariant CleanPrefix(rows, cs) && Checked(cs)
      invariant acc == ScanOf(cs)
      invariant customerId == |acc.customers| + 1 && orderId == |acc.orders| + 1
    {
      var row := rows[i];
      if !Complete(row) {
        FirstFault(rows, cs);
        return Err(RowError(i, ShortRow));
      }
      var c := Clean(row);
      if c.HasOrder() && c.dateInt.None? {
        FirstFault(rows, cs);
        return Err(RowError(i, NotAnInteger(c.date)));
      }
      if c.HasOrder() && c.quantityInt.None? {
        FirstFault(rows, cs);
        return Err(RowError(i, NotAnInteger(c.quantity)));
      }
      acc, customerId, orderId := AddLine(cs, acc, customerId, orderId, c);
      CleanPrefixSnoc(rows, cs, c);
      cs := cs + [c];
      i := i + 1;
    }
    CleanPrefixFull(rows, cs);
    res := Ok(acc);
  }

  /** Line i fails after lines 0..i-1 passed: the whole load fails, at line i. */
  lemma FirstFault(rows: seq<Row>, cs: seq<CleanRow>)
    requires CleanPrefix(rows, cs) && |cs| < |rows| && CheckRow(rows[|cs|]).Err?
    ensures !AllRowsOk(rows)
    ensures forall j :: 0 <= j < |cs| ==> CheckRow(rows[j]).Ok?
  {
  }

  // ---------------------------------------------------------------------------
  // Numbering (populate_db.py:234-264)
  // ---------------------------------------------------------------------------

  function RegionRows(ts: seq<Tuple>): (r: seq<StageRegion>)
    requires forall t :: t in ts ==> |t| == 1
  {
    seq(|ts|, i requires 0 <= i < |ts| => StageRegion(i + 1, ts[i][0]))
  }

  function CountryRows(ts: seq<Tuple>): (r: seq<StageCountry>)
    requires forall t :: t in ts ==> |t| == 2
  {
    seq(|ts|, i requires 0 <= i < |ts| => StageCountry(i + 1, ts[i][0], ts[i][1]))
  }

  function CategoryRows(ts: seq<Tuple>): (r: seq<StageCategory>)
    requires forall t :: t in ts ==> |t| == 2
  {
    seq(|ts|, i requires 0 <= i < |ts| => StageCategory(i + 1, ts[i][0], ts[i][1]))
  }

  function ProductRows(ts: seq<Tuple>): (r: seq<StageProduct>)
    requires forall t :: t in ts ==> |t| == 3
  {
    seq(|ts|, i requires 0 <= i < |ts| => StageProduct(i + 1, ts[i][0], ts[i][1], ts[i][2]))
  }

  predicate Arities(scan: Scan) {
    (forall t :: t in scan.regions ==> |t| == 1) &&
    (forall t :: t in scan.countries ==> |t| == 2) &&
    (forall t :: t in scan.categories ==> |t| == 2) &&
    (forall t :: t in scan.products ==> |t| == 3)
  }

  /** The six staging relations the load inserts once the loop is done. */
  function StagingOf(scan: Scan): Staging
    requires Arities(scan)
  {
    Staging(
      RegionRows(SortedOf(scan.regions)),
      CountryRows(SortedOf(scan.countries)),
      scan.customers,
      CategoryRows(SortedOf(scan.categories)),
      ProductRows(SortedOf(scan.products)),
      scan.orders)
  }

  /** The staging relations a clean load of the lines `cs` leaves behind. */
  function StageOf(cs: seq<CleanRow>): Staging
    requires Checked(cs)
  {
    StagingOf(ScanOf(cs))
  }

  // ---------------------------------------------------------------------------
  // What the staging inserts can still reject (populate_db.py:255-264)
  // ---------------------------------------------------------------------------

  /** PostgreSQL's INTEGER: a signed 32-bit value. */
  predicate FitsInteger(n: int) {
    -0x8000_0000 <= n <= 0x7fff_ffff
  }

  /** Every price token is one `float()` accepts and REAL can store, as decided by `isFloat`. */
  predicate PricesConvert(products: seq<StageProduct>, isFloat: string -> bool) {
    forall p :: p in products ==> isFloat(p.unitPrice)
  }

  /** Every order's date and quantity fit the INTEGER columns of stage_orderdetails. */
  predicate OrdersFit(orders: seq<StageOrder>) {
    forall o :: o in orders ==> FitsInteger(o.orderDate) && FitsInteger(o.quantity)
  }

  /**
   * The loop and the six staging inserts of populate_db.py:180-264: the
   * numbered staging rows, or the first failure.  A data line that raises
   * comes first; then `float()` on a price (:257, products are inserted
   * before orders), then an order value that overflows INTEGER (:261-264).
   * `isFloat(t)` says whether `float(t)` accepts the token `t` and its value
   * fits the REAL column ProductUnitPrice.
   */
  method StageRows(rows: seq<Row>, isFloat: string -> bool) returns (res: Result<Staging, LoadError>)
    ensures !AllRowsOk(rows) ==>
      res.Err? && res.error.RowError? && res.error.row < |rows| &&
      CheckRow(rows[res.error.row]) == Err(res.error.fault) &&
      forall j :: 0 <= j < res.error.row ==> CheckRow(rows[j]).Ok?
    ensures AllRowsOk(rows) ==>
      var staged := StageOf(CleanRows(rows));
      res == if !PricesConvert(staged.products, isFloat) then Err(PriceNotAFloat)
             else if !OrdersFit(staged.orders) then Err(IntegerOutOfRange)
             else Ok(staged)
  {
    var scanned := ScanRows(rows);
    if scanned.Err? {
      return Err(scanned.error);
    }
    var staged := StagingOf(scanned.value);
    if !PricesConvert(staged.products, isFloat) {
      return Err(PriceNotAFloat);
    }
    if !OrdersFit(staged.orders) {
      return Err(IntegerOutOfRange);
    }
    return Ok(staged);
  }

  // ---------------------------------------------------------------------------
  // What the staging relations hold
  // ---------------------------------------------------------------------------

  /** The guarantees of `SortedOf`, as the numbering lemmas below take them. */
  ghost predicate SortedListing(ts: seq<Tuple>, s: set<Tuple>) {
    StrictlySorted(ts) && |ts| == |s| && forall t :: t in ts <==> t in s
  }


  /**
   * stage_regions numbers a sorted listing of the set `s`: each tuple of `s` exactly
   * once, ids 1..k, rows in ascending order of their tuples.
   */
  lemma NumberedRegions(ts: seq<Tuple>, s: set<Tuple>)
    requires SortedListing(ts, s) && forall t :: t in s ==> |t| == 1
    ensures var r := RegionRows(ts);
      |r| == |s| &&
      (forall j :: 0 <= j < |r| ==> r[j].regionId == j + 1 && [r[j].region] in s) &&
      (forall t :: t in s ==> exists j :: 0 <= j < |r| && [r[j].region] == t) &&
      (forall i, j :: 0 <= i < j < |r| ==> TupleLess([r[i].region], [r[j].region]))
  {
    var r := RegionRows(ts);
    forall j | 0 <= j < |r| ensures ts[j] == [r[j].region] {
      assert ts[j] in s;
    }
    forall t | t in s ensures exists j :: 0 <= j < |r| && [r[j].region] == t {
      var j :| 0 <= j < |ts| && ts[j] == t;
      assert [r[j].region] == t;
    }
  }

  /**
   * stage_regions after a clean load of the lines `cs` (the `regions` of
   * `StagingOf`): region ids 1..k, one row per distinct non-empty region of
   * the lines, in ascending string order.
   */
  lemma StagedRegions(cs: seq<CleanRow>)
    ensures var r := RegionRows(SortedOf(RegionSet(cs)));
      forall j :: 0 <= j < |r| ==>
        r[j].regionId == j + 1 && exists x :: x in cs && x.HasRegion() && x.region == r[j].region
    ensures var r := RegionRows(SortedOf(RegionSet(cs)));
      forall x :: x in cs && x.HasRegion() ==> exists j :: 0 <= j < |r| && r[j].region == x.region
    ensures var r := RegionRows(SortedOf(RegionSet(cs)));
      forall i, j :: 0 <= i < j < |r| ==> StrLess(r[i].region, r[j].region)
  {
    var ts := SortedOf(RegionSet(cs));
    RegionRowsFromLines(cs, ts);
    RegionRowsCoverLines(cs, ts);
    RegionRowsAscending(cs, ts);
  }

  lemma RegionRowsFromLines(cs: seq<CleanRow>, ts: seq<Tuple>)
    requires SortedListing(ts, RegionSet(cs))
    ensures var r := RegionRows(ts);
      forall j :: 0 <= j < |r| ==>
        r[j].regionId == j + 1 && exists x :: x in cs && x.HasRegion() && x.region == r[j].region
  {
    var s := RegionSet(cs);
    var r := RegionRows(ts);
    NumberedRegions(ts, s);
    RegionSetMembers(cs);
    forall j | 0 <= j < |r| ensures exists x :: x in cs && x.HasRegion() && x.region == r[j].region {
      assert [r[j].region] in s;
      var x :| x in cs && x.HasRegion() && [r[j].region] == [x.region];
      assert [x.region][0] == x.region;
    }
  }

  lemma RegionRowsCoverLines(cs: seq<CleanRow>, ts: seq<Tuple>)
    requires SortedListing(ts, RegionSet(cs))
    ensures var r := RegionRows(ts);
      forall x :: x in cs && x.HasRegion() ==> exists j :: 0 <= j < |r| && r[j].region == x.region
  {
    var s := RegionSet(cs);
    var r := RegionRows(ts);
    NumberedRegions(ts, s);
    RegionSetMembers(cs);
    forall x | x in cs && x.HasRegion() ensures exists j :: 0 <= j < |r| && r[j].region == x.region {
      assert [x.region] in s;
      var j :| 0 <= j < |r| && [r[j].region] == [x.region];
      assert [r[j].region][0] == r[j].region;
    }
  }

  lemma RegionRowsAscending(cs: seq<CleanRow>, ts: seq<Tuple>)
    requires SortedListing(ts, RegionSet(cs))
    ensures var r := RegionRows(ts);
      forall i, j :: 0 <= i < j < |r| ==> StrLess(r[i].region, r[j].region)
  {
    var r := RegionRows(ts);
    NumberedRegions(ts, RegionSet(cs));
    forall i, j | 0 <= i < j < |r| ensures StrLess(r[i].region, r[j].region) {
      SingletonTupleLess(r[i].region, r[j].region);
    }
  }

  /**
   * stage_countries after a clean load of the lines `cs` (the `countries` of
   * `StagingOf`): ids 1..k, one row per distinct (country, region) pair whose parts are both non-empty, in ascending tuple order.
   */
  lemma StagedCountries(cs: seq<CleanRow>)
    ensures var r := CountryRows(SortedOf(CountrySet(cs)));
      forall j :: 0 <= j < |r| ==>
        r[j].countryId == j + 1 && exists x :: x in cs && x.HasCountry() && [x.country, x.region] == [r[j].country, r[j].region]
    ensures var r := CountryRows(SortedOf(CountrySet(cs)));
      forall x :: x in cs && x.HasCountry() ==> exists j :: 0 <= j < |r| && [r[j].country, r[j].region] == [x.country, x.region]
    ensures var r := CountryRows(SortedOf(CountrySet(cs)));
      forall i, j :: 0 <= i < j < |r| ==> TupleLess([r[i].country, r[i].region], [r[j].country, r[j].region])
  {
    var ts := SortedOf(CountrySet(cs));
    CountryRowsFromLines(cs, ts);
    CountryRowsCoverLines(cs, ts);
    NumberedCountries(ts, CountrySet(cs));
  }

  lemma CountryRowsFromLines(cs: seq<CleanRow>, ts: seq<Tuple>)
    requires SortedListing(ts, CountrySet(cs))
    ensures var r := CountryRows(ts);
      forall j :: 0 <= j < |r| ==>
        r[j].countryId == j + 1 && exists x :: x in cs && x.HasCountry() && [x.country, x.region] == [r[j].country, r[j].region]
  {
    var s := CountrySet(cs);
    var r := CountryRows(ts);
    NumberedCountries(ts, s);
    CountrySetMembers(cs);
    forall j | 0 <= j < |r| ensures exists x :: x in cs && x.HasCountry() && [x.country, x.region] == [r[j].country, r[j].region] {
      assert [r[j].country, r[j].region] in s;
    }
  }

  lemma CountryRowsCoverLines(cs: seq<CleanRow>, ts: seq<Tuple>)
    requires SortedListing(ts, CountrySet(cs))
    ensures var r := CountryRows(ts);
      forall x :: x in cs && x.HasCountry() ==> exists j :: 0 <= j < |r| && [r[j].country, r[j].region] == [x.country, x.region]
  {
    var s := CountrySet(cs);
    var r := CountryRows(ts);
    NumberedCountries(ts, s);
    CountrySetMembers(cs);
    forall x | x in cs && x.HasCountry() ensures exists j :: 0 <= j < |r| && [r[j].country, r[j].region] == [x.country, x.region] {
      assert [x.country, x.region] in s;
    }
  }

  /**
   * stage_productcategories after a clean load of the lines `cs` (the `categories` of
   * `StagingOf`): ids 1..k, one row per distinct (category, description) pair whose parts are both non-empty, in ascending tuple order.
   */
  lemma StagedCategories(cs: seq<CleanRow>)
    ensures var r := CategoryRows(SortedOf(CategorySet(cs)));
      forall j :: 0 <= j < |r| ==>
        r[j].categoryId == j + 1 && exists x :: x in cs && x.HasCategory() && [x.category, x.description] == [r[j].category, r[j].description]
    ensures var r := CategoryRows(SortedOf(CategorySet(cs)));
      forall x :: x in cs && x.HasCategory() ==> exists j :: 0 <= j < |r| && [r[j].category, r[j].description] == [x.category, x.description]
    ensures var r := CategoryRows(SortedOf(CategorySet(cs)));
      forall i, j :: 0 <= i < j < |r| ==> TupleLess([r[i].category, r[i].description], [r[j].category, r[j].description])
  {
    var ts := SortedOf(CategorySet(cs));
    CategoryRowsFromLines(cs, ts);
    CategoryRowsCoverLines(cs, ts);
    NumberedCategories(ts, CategorySet(cs));
  }

  lemma CategoryRowsFromLines(cs: seq<CleanRow>, ts: seq<Tuple>)
    requires SortedListing(ts, CategorySet(cs))
    ensures var r := CategoryRows(ts);
      forall j :: 0 <= j < |r| ==>
        r[j].categoryId == j + 1 && exists x :: x in cs && x.HasCategory() && [x.category, x.description] == [r[j].category, r[j].description]
  {
    var s := CategorySet(cs);
    var r := CategoryRows(ts);
    NumberedCategories(ts, s);
    CategorySetMembers(cs);
    forall j | 0 <= j < |r| ensures exists x :: x in cs && x.HasCategory() && [x.category, x.description] == [r[j].category, r[j].description] {
      assert [r[j].category, r[j].description] in s;
    }
  }

  lemma CategoryRowsCoverLines(cs: seq<CleanRow>, ts: seq<Tuple>)
    requires SortedListing(ts, CategorySet(cs))
    ensures var r := CategoryRows(ts);
      forall x :: x in cs && x.HasCategory() ==> exists j :: 0 <= j < |r| && [r[j].category, r[j].description] == [x.category, x.description]
  {
    var s := CategorySet(cs);
    var r := CategoryRows(ts);
    NumberedCategories(ts, s);
    CategorySetMembers(cs);
    forall x | x in cs && x.HasCategory() ensures exists j :: 0 <= j < |r| && [r[j].category, r[j].description] == [x.category, x.description] {
      assert [x.category, x.description] in s;
    }
  }

  /**
   * stage_products after a clean load of the lines `cs` (the `products` of
   * `StagingOf`): ids 1..k, one row per distinct (product name, price token, category) triple with a non-empty name and price, in ascending tuple order.
   */
  lemma StagedProducts(cs: seq<CleanRow>)
    ensures var r := ProductRows(SortedOf(ProductSet(cs)));
      forall j :: 0 <= j < |r| ==>
        r[j].productId == j + 1 && exists x :: x in cs && x.HasProduct() && [x.productName, x.price, x.category] == [r[j].productName, r[j].unitPrice, r[j].category]
    ensures var r := ProductRows(SortedOf(ProductSet(cs)));
      forall x :: x in cs && x.HasProduct() ==> exists j :: 0 <= j < |r| && [r[j].productName, r[j].unitPrice, r[j].category] == [x.productName, x.price, x.category]
    ensures var r := ProductRows(SortedOf(ProductSet(cs)));
      forall i, j :: 0 <= i < j < |r| ==> TupleLess([r[i].productName, r[i].unitPrice, r[i].category], [r[j].productName, r[j].unitPrice, r[j].category])
  {
    var ts := SortedOf(ProductSet(cs));
    ProductRowsFromLines(cs, ts);
    ProductRowsCoverLines(cs, ts);
    NumberedProducts(ts, ProductSet(cs));
  }

  lemma ProductRowsFromLines(cs: seq<CleanRow>, ts: seq<Tuple>)
    requires SortedListing(ts, ProductSet(cs))
    ensures var r := ProductRows(ts);
      forall j :: 0 <= j < |r| ==>
        r[j].productId == j + 1 && exists x :: x in cs && x.HasProduct() && [x.productName, x.price, x.category] == [r[j].productName, r[j].unitPrice, r[j].category]
  {
    var s := ProductSet(cs);
    var r := ProductRows(ts);
    NumberedProducts(ts, s);
    ProductSetMembers(cs);
    forall j | 0 <= j < |r| ensures exists x :: x in cs && x.HasProduct() && [x.productName, x.price, x.category] == [r[j].productName, r[j].unitPrice, r[j].category] {
      assert [r[j].productName, r[j].unitPrice, r[j].category] in s;
    }
  }

  lemma ProductRowsCoverLines(cs: seq<CleanRow>, ts: seq<Tuple>)
    requires SortedListing(ts, ProductSet(cs))
    ensures var r := ProductRows(ts);
      forall x :: x in cs && x.HasProduct() ==> exists j :: 0 <= j < |r| && [r[j].productName, r[j].unitPrice, r[j].category] == [x.productName, x.price, x.category]
  {
    var s := ProductSet(cs);
    var r := ProductRows(ts);
    NumberedProducts(ts, s);
    ProductSetMembers(cs);
    forall x | x in cs && x.HasProduct() ensures exists j :: 0 <= j < |r| && [r[j].productName, r[j].unitPrice, r[j].category] == [x.productName, x.price, x.category] {
      assert [x.productName, x.price, x.category] in s;
    }
  }

  /**
   * stage_countries numbers a sorted listing of the set `s`: each tuple of `s` exactly
   * once, ids 1..k, rows in ascending order of their tuples.
   */
  lemma NumberedCountries(ts: seq<Tuple>, s: set<Tuple>)
    requires SortedListing(ts, s) && forall t :: t in s ==> |t| == 2
    ensures var r := CountryRows(ts);
      |r| == |s| &&
      (forall j :: 0 <= j < |r| ==> r[j].countryId == j + 1 && [r[j].country, r[j].region] in s) &&
      (forall t :: t in s ==> exists j :: 0 <= j < |r| && [r[j].country, r[j].region] == t) &&
      (forall i, j :: 0 <= i < j < |r| ==> TupleLess([r[i].country, r[i].region], [r[j].country, r[j].region]))
  {
    var r := CountryRows(ts);
    forall j | 0 <= j < |r| ensures ts[j] == [r[j].country, r[j].region] {
      assert ts[j] in s;
    }
    forall t | t in s ensures exists j :: 0 <= j < |r| && [r[j].country, r[j].region] == t {
      var j :| 0 <= j < |ts| && ts[j] == t;
      assert [r[j].country, r[j].region] == t;
    }
  }

  /**
   * stage_productcategories numbers a sorted listing of the set `s`: each tuple of `s` exactly
   * once, ids 1..k, rows in ascending order of their tuples.
   */
  lemma NumberedCategories(ts: seq<Tuple>, s: set<Tuple>)
    requires SortedListing(ts, s) && forall t :: t in s ==> |t| == 2
    ensures var r := CategoryRows(ts);
      |r| == |s| &&
      (forall j :: 0 <= j < |r| ==> r[j].categoryId == j + 1 && [r[j].category, r[j].description] in s) &&
      (forall t :: t in s ==> exists j :: 0 <= j < |r| && [r[j].category, r[j].description] == t) &&
      (forall i, j :: 0 <= i < j < |r| ==> TupleLess([r[i].category, r[i].description], [r[j].category, r[j].description]))
  {
    var r := CategoryRows(ts);
    forall j | 0 <= j < |r| ensures ts[j] == [r[j].category, r[j].description] {
      assert ts[j] in s;
    }
    forall t | t in s ensures exists j :: 0 <= j < |r| && [r[j].category, r[j].description] == t {
      var j :| 0 <= j < |ts| && ts[j] == t;
      assert [r[j].category, r[j].description] == t;
    }
  }

  /**
   * stage_products numbers a sorted listing of the set `s`: each tuple of `s` exactly
   * once, ids 1..k, rows in ascending order of their tuples.
   */
  lemma NumberedProducts(ts: seq<Tuple>, s: set<Tuple>)
    requires SortedListing(ts, s) && forall t :: t in s ==> |t| == 3
    ensures var r := ProductRows(ts);
      |r| == |s| &&
      (forall j :: 0 <= j < |r| ==> r[j].productId == j + 1 && [r[j].productName, r[j].unitPrice, r[j].category] in s) &&
      (forall t :: t in s ==> exists j :: 0 <= j < |r| && [r[j].productName, r[j].unitPrice, r[j].category] == t) &&
      (forall i, j :: 0 <= i < j < |r| ==> TupleLess([r[i].productName, r[i].unitPrice, r[i].category], [r[j].productName, r[j].unitPrice, r[j].category]))
  {
    var r := ProductRows(ts);
    forall j | 0 <= j < |r| ensures ts[j] == [r[j].productName, r[j].unitPrice, r[j].category] {
      assert ts[j] in s;
    }
    forall t | t in s ensures exists j :: 0 <= j < |r| && [r[j].productName, r[j].unitPrice, r[j].category] == t {
      var j :| 0 <= j < |ts| && ts[j] == t;
      assert [r[j].productName, r[j].unitPrice, r[j].category] == t;
    }
  }

}
