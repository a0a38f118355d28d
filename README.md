# A verified model of the populate_db.py loader

`populate_db.py` loads a flat, denormalised, tab-separated sales feed into
PostgreSQL in two parts:

- **Staging.** `load_tsv_to_stage` checks the header against the expected
  columns. It then cleans every line:
  - every field is stripped;
  - price, quantity and date keep only the text before the first `;`;
  - the customer name is split into a first word and the rest.

  Regions, countries, categories and products are deduplicated in sets and
  numbered from 1 in sorted order. Customers and orders are numbered from 1 in
  input order. Quantity and date go through `int()`. The result is six staging
  relations.
- **Reconciliation.** `build_dimensions`, `load_entities` and `build_facts`
  copy the staging rows into six keyed tables. Each copy is an
  `INSERT … SELECT … JOIN … ON CONFLICT (key) DO NOTHING` whose join is an
  exact match on a name.

The model follows that structure:

- `wrappers.dfy`: `Option` and `Result`.
- `text.dfy` (module `Text`): Python's `strip()`, `split()` and `" ".join`,
  the `;` cut, PostgreSQL's `TRIM`, and the literals Python's `int()`
  accepts.
- `ordering.dfy` (module `Ordering`): Python's order on strings and tuples
  of strings, and `sorted()` of a set (`SortedOf`).
- `schema.dfy` (module `Schema`): the records of the twelve relations.
  - Staging relations are sequences of rows.
  - Final tables are maps from primary key to record.
  - `RefIntegrity` says every foreign key resolves.
- `stage.dfy` (module `Stage`), the line-by-line part of `load_tsv_to_stage`:
  - `CheckRow` and `Clean` clean one line;
  - the loop is the method `ScanRows` with its helper `AddLine`;
  - `StageRows` covers the staging inserts.

  Each method is proved against specification functions of the input lines
  (`ScanOf`, `StageOf`). Lemmas state what those functions hold.
- `reconcile.dfy` (module `Reconcile`), the three reconciliation steps:
  - the rows each SELECT yields, as candidate sets;
  - insert-unless-the-key-exists, as the relation `InsertedSkipping`
    implemented by the method `InsertSkipping`;
  - lemmas on referential integrity, matching parents, dropped rows and
    idempotence.
- `db.dfy` (module `Db`): the class `Database`, whose `stage` and `tables`
  fields the five phases update in place.

Behaviour of the code that the model keeps as it is:

- The quantity column is spelled `QuantityOrderded`.
- Customers join their country on the country name alone, and products
  join their category on the category name alone. One staging row can
  therefore have several candidate parents. The model promises some matching
  parent, never which one.
- Orders join customers on `TRIM(FirstName || ' ' || LastName) = TRIM(CustomerName)`.
  The first and last names are the stored name re-spaced by `split()`, while
  `CustomerName` is the name as written. A name with any inner whitespace other
  than single spaces (a tab, a newline, a run of spaces) therefore never finds its customer (`Reconcile.SameLineNameJoin`),
  nor any other customer, so its row never reaches OrderDetail
  (`Reconcile.PipelineDropsUnnormalizedOrders`).
- Products are deduplicated on the price *text*, so the model keeps the price
  as a string.
- The six staging DELETEs are committed before the first line is read. A load
  that fails after the header check leaves the staging relations empty.

## Model

| member | source | states |
|---|---|---|
| Text.Strip | populate_db.py:181-189 | `strip()` leaves no whitespace at either end and never lengthens the field |
| Text.StripShape | populate_db.py:181-189 | `strip()` keeps a contiguous middle part of the field; what it removes before and after that part is whitespace only |
| Text.BeforeSemicolonShape | populate_db.py:190 | `s.split(";")[0]` has no `;`, is a prefix of `s`, stops exactly at the first `;`, and is all of `s` when `s` has no `;` |
| Text.FieldTokenShape | populate_db.py:190-198 | the price, quantity and date token is the stripped field's text before its first `;`; it has no `;`, is the whole field when the field has none, and is empty for an empty field |
| Text.FieldToken | populate_db.py:190-198 | the kept token is never longer than its stripped field |
| Text.SqlTrim | populate_db.py:346 | PostgreSQL `TRIM` leaves no space at either end |
| Text.SqlTrimShape | populate_db.py:346 | `TRIM` keeps one contiguous slice of its argument and removes only spaces before and after it; with the ensures of `SqlTrim`, exactly the leading and trailing spaces go |
| Text.SqlTrimKeeps | populate_db.py:346 | `TRIM` leaves a string without spaces at its ends unchanged |
| Text.Words | populate_db.py:210 | `split()` yields non-empty words without whitespace, and yields none exactly when the name is all whitespace |
| Text.WordsOfWord | populate_db.py:210 | a non-empty string without whitespace splits into itself alone |
| Text.WordsAroundWs | populate_db.py:210 | splitting at any whitespace character splits the two sides independently: `(a + c + b).split() == a.split() + b.split()`; with `WordsOfWord` and the empty case of `Words`, this fixes `split()` on every input, including names with inner runs of whitespace |
| Text.WordsOfJoin | populate_db.py:216 | `" ".join(ws).split()` gives back `ws` for any list of non-empty whitespace-free words, so `" ".join` loses nothing the split made |
| Text.SplitName | populate_db.py:209-216 | the first name is the first word (non-empty, no whitespace); the last name is empty exactly when there is one word, and is always normalized |
| Text.JoinSpaceNormalized | populate_db.py:216 | `" ".join` of words is normalized: single spaces, only between two non-blank characters |
| Text.WordsOfNormalized | populate_db.py:210-216 | `" ".join(s.split())` gives back every normalized `s` |
| Text.RejoinIffNormalized | populate_db.py:210-216 | `" ".join(s.split()) == s` holds if and only if `s` is normalized |
| Text.FullNameOfSplit | populate_db.py:209-216 | the full name the order join of line 346 rebuilds from the split name (TRIM of first name, a space and last name) equals `" ".join(name.split())`, including the one-word case where last is empty |
| Text.SplitNameRejoins | populate_db.py:209-216 | for a stripped non-blank name, the full name the order join of line 346 rebuilds equals `TRIM(name)` if and only if the name is normalized |
| Text.FullNameNormalized | populate_db.py:346 | the full name the order join rebuilds from any first and last name of the split's shape is normalized |
| Text.ParseInt | populate_db.py:231 | `int(t)` succeeds exactly on an integer literal: surrounding C whitespace (tab to carriage return, and space), an optional sign, digits with single underscores between digits |
| Text.ParseIntPadded | populate_db.py:231 | C whitespace before and after any token changes neither whether `int()` accepts it nor the value |
| Text.ParseDigitRun | populate_db.py:231 | `int()` reads a bare digit run (underscores between digits allowed) as the number its digits spell |
| Text.ParseIntSigned | populate_db.py:231 | a leading `+` on a digit run leaves the value unchanged, and a leading `-` negates it |
| Text.ParseIntLeadingZero | populate_db.py:231 | a leading zero, signed or not, is still a literal and does not change the value |
| Text.ParseIntUnderscore | populate_db.py:231 | removing an underscore between two digits keeps a literal a literal and keeps its value; with the lemmas above and `ParseShowInt`, this fixes the value of every literal `int()` accepts |
| Text.SeparatorNotSkipped | populate_db.py:189-231 | a digit followed by a file separator (0x1C) is stripped to the digit by `strip()`, yet `int()` rejects it, because `int()` skips only C whitespace |
| Text.ParseShowInt | populate_db.py:231 | reading back the decimal spelling of any integer gives that integer |
| Ordering.TupleLessIrreflexive | populate_db.py:237-257 | Python's tuple order is irreflexive |
| Ordering.TupleLessTransitive | populate_db.py:237-257 | Python's tuple order is transitive |
| Ordering.TupleLessTotal | populate_db.py:237-257 | any two distinct tuples are ordered one way or the other |
| Ordering.SingletonTupleLess | populate_db.py:237 | on one-element tuples the tuple order is the string order, so regions may be kept as one-element tuples |
| Ordering.SortedOf | populate_db.py:237-257 | `sorted(s)` lists every element of `s` exactly once, in strictly increasing order |
| Ordering.SortedListingIsSortedOf | populate_db.py:237-257 | any strictly increasing listing of a set is `sorted()` of it, so the numbering does not depend on how the set was built |
| Ordering.SortedUnique | populate_db.py:237-257 | two strictly increasing listings of the same elements are equal |
| Ordering.SortedNames | populate_db.py:156 | `sorted()` of a set of strings lists each string once, in ascending order |
| Stage.MissingFrom | populate_db.py:156-158 | the reported columns are exactly the expected ones absent from the header, in ascending order; the list is empty if and only if every expected column is present |
| Stage.CompleteIsExpected | populate_db.py:131-145 | a line can be cleaned if and only if it has a value for every expected column |
| Stage.Clean | populate_db.py:181-198 | the cleaned name is stripped; `int()` succeeds on the date (quantity) token if and only if it is an integer literal |
| Stage.CleanTokens | populate_db.py:189-198 | the price, quantity and date of a cleaned line contain no `;` and are prefixes of their stripped fields |
| Stage.CheckRow | populate_db.py:181-231 | a line passes if and only if it has every field and, when it is an order line, its date and quantity convert; a failing line is `ShortRow` exactly when a field is missing; otherwise the fault names the date token when the date does not convert, and the quantity token only when the date does |
| Stage.RegionSet | populate_db.py:200-202 | every element of `region_set` is a one-element tuple holding a non-empty region |
| Stage.CountrySet | populate_db.py:204-206 | every element of `country_set` is a pair of a non-empty country and a non-empty region |
| Stage.CategorySet | populate_db.py:221-223 | every element of `category_set` is a pair of a non-empty category and a non-empty description |
| Stage.ProductSet | populate_db.py:225-227 | every element of `product_set` is a triple whose name and price are non-empty |
| Stage.RegionSetMembers | populate_db.py:200-202 | `region_set` holds exactly the non-empty regions of the lines |
| Stage.CountrySetMembers | populate_db.py:204-206 | `country_set` holds exactly the (country, region) pairs of the lines where both are non-empty |
| Stage.CategorySetMembers | populate_db.py:221-223 | `category_set` holds exactly the (category, description) pairs of the lines where both are non-empty |
| Stage.ProductSetMembers | populate_db.py:225-227 | `product_set` holds exactly the (name, price, category) triples of the lines with a non-empty name and price; the category may be empty |
| Stage.NamedRows | populate_db.py:209 | every line the customer branch takes is an input line with a non-empty name, and there are no more of them than lines |
| Stage.NamedRowsMembers | populate_db.py:209 | the customer branch takes exactly the input lines with a non-empty name |
| Stage.OrderRows | populate_db.py:230 | every line the order branch takes is an input line with a non-empty product name, quantity and date, and there are no more of them than lines |
| Stage.OrderRowsMembers | populate_db.py:230 | the order branch takes exactly the input lines with a non-empty product name, quantity and date |
| Stage.CustomersNumbered | populate_db.py:209-219 | there is one customer per named line; the j-th customer has id j+1 and is built from the j-th named line |
| Stage.OrdersNumbered | populate_db.py:229-232 | there is one order per order line; the j-th order has id j+1 and is built from the j-th order line |
| Stage.StagedNames | populate_db.py:209-232 | every staged customer's first and last name have the shape `split()` gives them, every staged order name is stripped, and no two staged orders share an id |
| Stage.AddLine | populate_db.py:199-232 | one loop iteration for a line that does not raise turns the locals for lines `cs` into those for `cs` plus the line, and keeps both counters one past the list lengths |
| Stage.ScanRows | populate_db.py:180-232 | the loop succeeds if and only if every line passes `CheckRow`, and then yields the sets and lists of the cleaned lines; otherwise it reports the first failing line and its fault |
| Stage.StageRows | populate_db.py:180-264 | the staging rows of the cleaned lines; or the first failing line; or, for clean lines, a price that `float()` rejects or REAL cannot hold; or an order value outside INTEGER |
| Stage.NumberedRegions | populate_db.py:235-238 | the numbered listing of a sorted set has one row per element, ids 1..k, in ascending order |
| Stage.NumberedCountries | populate_db.py:240-243 | the same for (country, region) pairs |
| Stage.NumberedCategories | populate_db.py:250-253 | the same for (category, description) pairs |
| Stage.NumberedProducts | populate_db.py:255-258 | the same for product triples |
| Stage.StagedRegions | populate_db.py:235-238 | stage_regions has ids 1..k; each row is a region of some line and each non-empty region of a line has a row; regions strictly ascend, so none repeats |
| Stage.StagedCountries | populate_db.py:240-243 | stage_countries has ids 1..k; the rows are exactly the qualifying (country, region) pairs, in strictly ascending tuple order |
| Stage.StagedCategories | populate_db.py:250-253 | stage_productcategories has ids 1..k; the rows are exactly the qualifying (category, description) pairs, in strictly ascending tuple order |
| Stage.StagedProducts | populate_db.py:255-258 | stage_products has ids 1..k; the rows are exactly the qualifying product triples, in strictly ascending tuple order |
| Reconcile.InsertSkipping | populate_db.py:273-277 | `ON CONFLICT (key) DO NOTHING`, as in every insert of lines 273-349: afterwards every proposed key is present, existing rows are unchanged, and each new row is a candidate for its key |
| Reconcile.InsertIdempotent | populate_db.py:273-277 | running the same insert again changes nothing |
| Reconcile.InsertDeterministic | populate_db.py:273-277 | with one candidate per key, every possible result of the insert is the same |
| Reconcile.CountryCands | populate_db.py:279-288 | every country the join yields points to a Region row that exists |
| Reconcile.CustomerCands | populate_db.py:305-316 | every customer the join yields points to a Country row that exists |
| Reconcile.ProductCands | populate_db.py:318-328 | every product the join yields points to a ProductCategory row that exists |
| Reconcile.NameMatches | populate_db.py:346 | a stripped order name with any inner whitespace other than single spaces never equals the trimmed full name of a customer whose name has the split's shape |
| Reconcile.OrderCands | populate_db.py:337-349 | every order the join yields points to a Customer row and a Product row that exist |
| Reconcile.DimensionsMatch | populate_db.py:279-288 | every country `build_dimensions` adds points to an existing region whose name is the staging country's region |
| Reconcile.EntitiesMatch | populate_db.py:304-328 | every customer (product) `load_entities` adds points to an existing country (category) whose name matches the staging row |
| Reconcile.FactsMatch | populate_db.py:337-349 | every order `build_facts` adds points to an existing customer whose trimmed full name matches and an existing product whose name matches |
| Reconcile.SameLineNameJoin | populate_db.py:346 | the order of a line finds the customer row built from the same line if and only if the line's name is normalized |
| Reconcile.DimensionsKeepIntegrity | populate_db.py:270-298 | `build_dimensions` keeps every foreign key resolved |
| Reconcile.EntitiesKeepIntegrity | populate_db.py:301-331 | `load_entities` keeps every foreign key resolved |
| Reconcile.FactsKeepIntegrity | populate_db.py:334-352 | `build_facts` keeps every foreign key resolved |
| Reconcile.PipelineIntegrity | populate_db.py:270-352 | starting from the empty tables, the three steps leave every foreign key resolved after each step |
| Reconcile.DimensionsIdempotent | populate_db.py:270-298 | re-running `build_dimensions` on the same staging data changes nothing |
| Reconcile.EntitiesIdempotent | populate_db.py:301-331 | re-running `load_entities` on the same staging data changes nothing |
| Reconcile.FactsIdempotent | populate_db.py:334-352 | re-running `build_facts` on the same staging data changes nothing |
| Reconcile.UnmatchedCountryDropped | populate_db.py:286 | a staging country whose region name is in no Region row is dropped without error; its key stays absent |
| Reconcile.UnmatchedOrderDropped | populate_db.py:346 | a staging order whose name matches no customer is dropped without error; its key stays absent |
| Reconcile.EntitiesKeepNamesSplit | populate_db.py:301-331 | `load_entities` adds only customers whose names have the split's shape, so every customer name keeps that shape |
| Reconcile.UnnormalizedOrderDropped | populate_db.py:337-349 | when every customer name has the split's shape, `build_facts` leaves the key of an order with a stripped, not normalized name (and no other order under that key) exactly as present or absent as before |
| Reconcile.PipelineDropsUnnormalizedOrders | populate_db.py:270-352 | after a clean load and the three steps from empty tables, an order whose customer name has any inner whitespace other than single spaces is absent from OrderDetail |
| Db.Database.CreateTables | populate_db.py:16-122 | every relation is dropped and recreated empty |
| Db.Database.LoadTsvToStage | populate_db.py:148-267 | a missing header or column is reported with nothing touched; otherwise the staging relations hold the staged rows, or are empty after a failure; the final tables never change |
| Db.Database.BuildDimensions | populate_db.py:270-298 | regions, then countries joined against the updated Region table, then categories, each inserted with conflicts skipped; the other tables and staging are unchanged |
| Db.Database.LoadEntities | populate_db.py:301-331 | customers and products inserted with conflicts skipped, joined on names only |
| Db.Database.BuildFacts | populate_db.py:334-352 | orders inserted with conflicts skipped, joined on trimmed full name and product name |

## Left out

- `streamlit_app.py` is not part of this model.
- Database connections, cursors, commits and the per-phase connection sequence of `__main__` (populate_db.py:356-394) are left out. Each phase is a method on one `Database` object. Transaction durability is not modelled.
- File handling is left out: the existence check and `FileNotFoundError` (populate_db.py:150-151), UTF-8 BOM decoding, tab splitting by `csv.DictReader`, and `csv.field_size_limit`. The model starts from the header, or None for an empty file where `set(None)` raises, plus one field map per data line. A short line, where DictReader supplies `None`, appears as a missing key. Extra fields are ignored.
- The floating-point price is left out (populate_db.py:62, 107, 257). The parameter `isFloat` decides two things at once: whether `float()` accepts a token, and whether the value fits PostgreSQL's REAL column (`"1e39"` passes `float()` but overflows REAL). Both failures abort the load the same way. Staging and Product keep the price token as text, so rounding to single precision is not modelled.
- Stage.StageRows: does not model the INTEGER range of the ids themselves, which would need more than 2^31-1 lines of input.
- Text.ParseInt: does not model Python's limit on the number of digits `int(str)` accepts (4300 by default since Python 3.11, leading zeros counted). The model accepts a longer literal and stages its value whenever that fits INTEGER; for example, 4300 zeros followed by `7` is staged as 7, where Python raises ValueError. When the value does not fit, the model fails the load as `IntegerOutOfRange` rather than with a row error.
- Text.IsWs: Python's whitespace and digits are limited to ASCII. Unicode whitespace for `strip()`, `split()` and `int()`, and Unicode digits for `int()`, are left out.
- A NUL character in a field, which PostgreSQL refuses in TEXT, is not modelled.
- Which parent row the database picks when a name-only join matches several is left open. The insert promises only one candidate per key.
- The order in which a SELECT returns rows is not modelled. Inserting candidates in any order gives the same set of possible outcomes.
- The DDL (populate_db.py:16-122) appears only as the record shapes and the foreign keys of `RefIntegrity`. The NOT NULL constraints are never at risk, because every staged value is a string or an integer.
- Stage.ScanRows: checks a line's date and quantity before adding its contributions, while the source adds the region, country, customer, category and product first. The outcome is the same, because the exception discards every local.
- Text.FieldToken: its own ensures gives only the length bound; the `;` cut is stated by `Text.FieldTokenShape`, kept apart so that the many callers do not carry it.
- Stage.RegionSet: its own ensures gives only the tuple shape; which regions it holds is stated by `Stage.RegionSetMembers`. The same holds for Stage.CountrySet, Stage.CategorySet and Stage.ProductSet with their `*SetMembers` lemmas.
- Stage.Customers, Stage.Orders and Stage.StagingOf carry no ensures of their own, because the scan loop's proof has to unfold them; what they hold is stated by `Stage.CustomersNumbered`, `Stage.OrdersNumbered`, `Stage.StagedNames` and the `Stage.Staged*` lemmas. Text.JoinSpace likewise has its properties in `Text.JoinSpaceNormalized` and `Text.WordsOfJoin`.
- Stage.CustomerOf and Stage.OrderOf (the tuples of populate_db.py:218 and :231) carry no ensures of their own either. What they build is stated by `Stage.CustomersNumbered`, `Stage.OrdersNumbered` and `Stage.StagedNames`, with the name split by `Text.SplitName`.
- Reconcile.RegionCands and Reconcile.CategoryCands (the plain SELECTs of populate_db.py:273-277 and :290-295) carry no ensures; their rows enter Region and ProductCategory through `Reconcile.InsertSkipping`, whose contract says every staged key ends up present and every new row is the staged row under its key.
- Text.BeforeSemicolon: its own ensures gives only the length bound; the cut at the first `;` is stated by `Text.BeforeSemicolonShape`.
- Stage.NamedRows and Stage.OrderRows: that the lines keep their input order is given by their definitions, not by a separate lemma.
