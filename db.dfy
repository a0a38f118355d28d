/**
 * The database the loader works on, as one object whose two groups of
 * relations the phases of populate_db.py update in place: the staging
 * relations and the final, keyed tables.
 */
module Db {
  import opened Wrappers
  import opened Schema
  import opened Stage
  import Reconcile

  class Database {
    var stage: Staging
    var tables: Tables

    constructor (stage0: Staging, tables0: Tables)
      ensures stage == stage0 && tables == tables0
    {
      stage := stage0;
      tables := tables0;
    }

    /** `STAGING_CREATE_SQL` (populate_db.py:16-122): every relation dropped and created empty. */
    method CreateTables()
      modifies this
      ensures stage == EmptyStaging && tables == EmptyTables
    {
      stage := EmptyStaging;
      tables := EmptyTables;
    }

    /**
     * `load_tsv_to_stage` (populate_db.py:148-267) on a file whose header is
     * `header` (None for an empty file) and whose data lines are `rows`;
     * `isFloat(t)` says whether Python's `float(t)` accepts the token `t` and
     * its value fits PostgreSQL's REAL column (so `"1e39"` fails it).
     *
     * A missing column is reported before anything is touched.  Otherwise the
     * six DELETEs are committed first, so a data line that makes Python raise,
     * or a staging insert that fails before the final commit, leaves the
     * staging relations empty.  A clean load replaces them with the numbered
     * rows of `StageOf`.  The final tables are never touched.
     */
    method LoadTsvToStage(header: Option<seq<string>>, rows: seq<Row>, expected: seq<string>, isFloat: string -> bool)
      returns (err: Option<LoadError>)
      modifies this
      ensures tables == old(tables)
      ensures header.None? ==> err == Some(NoHeader) && stage == old(stage)
      ensures header.Some? && MissingFrom(expected, header.value) != [] ==>
        err == Some(MissingColumns(MissingFrom(expected, header.value))) && stage == old(stage)
      ensures header.Some? && MissingFrom(expected, header.value) == [] && !AllRowsOk(rows) ==>
        stage == EmptyStaging && err.Some? && err.value.RowError? && err.value.row < |rows| &&
        CheckRow(rows[err.value.row]) == Err(err.value.fault) &&
        forall j :: 0 <= j < err.value.row ==> CheckRow(rows[j]).Ok?
      ensures header.Some? && MissingFrom(expected, header.value) == [] && AllRowsOk(rows) ==>
        var staged := StageOf(CleanRows(rows));
        if !PricesConvert(staged.products, isFloat) then
          err == Some(PriceNotAFloat) && stage == EmptyStaging
        else if !OrdersFit(staged.orders) then
          err == Some(IntegerOutOfRange) && stage == EmptyStaging
        else
          err == None && stage == staged
    {
      if header.None? {
        return Some(NoHeader);
      }
      var missing := MissingFrom(expected, header.value);
      if missing != [] {
        return Some(MissingColumns(missing));
      }
      stage := EmptyStaging;
      var staged := StageRows(rows, isFloat);
      if staged.Err? {
        err := Some(staged.error);
      } else {
        assert AllRowsOk(rows);
        stage := staged.value;
        err := None;
      }
    }

    /** `build_dimensions` (populate_db.py:270-298). */
    method BuildDimensions()
      modifies this
      ensures stage == old(stage)
      ensures Reconcile.DimensionsStep(stage, old(tables), tables)
    {
      var region := Reconcile.InsertSkipping(tables.region, Reconcile.RegionCands(stage.regions));
      var country := Reconcile.InsertSkipping(tables.country, Reconcile.CountryCands(stage.countries, region));
      var category := Reconcile.InsertSkipping(tables.category, Reconcile.CategoryCands(stage.categories));
      tables := tables.(region := region, country := country, category := category);
    }

    /** `load_entities` (populate_db.py:301-331). */
    method LoadEntities()
      modifies this
      ensures stage == old(stage)
      ensures Reconcile.EntitiesStep(stage, old(tables), tables)
    {
      var customer := Reconcile.InsertSkipping(tables.customer, Reconcile.CustomerCands(stage.customers, tables.country));
      var product := Reconcile.InsertSkipping(tables.product, Reconcile.ProductCands(stage.products, tables.category));
      tables := tables.(customer := customer, product := product);
    }

    /** `build_facts` (populate_db.py:334-352). */
    method BuildFacts()
      modifies this
      ensures stage == old(stage)
      ensures Reconcile.FactsStep(stage, old(tables), tables)
    {
      var order := Reconcile.InsertSkipping(tables.order,
        Reconcile.OrderCands(stage.orders, tables.customer, tables.product));
      tables := tables.(order := order);
    }
  }
}
