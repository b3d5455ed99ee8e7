/** `seedCatalog` of apps/api/prisma/seed-catalog.ts over any table of dataset types. */
module SeedCatalog {
  import opened JsText

  /** One catalog file; `contract` stands for the columns copied from it as they are. */
  datatype Schema<C> = Schema(datasetType: Text, contract: C, pipeline: seq<Text>, executionEnv: Text,
                              dedupeFields: seq<Text>, auditOptions: seq<int>)

  datatype Verification = Verification(pipeline: seq<Text>, executionEnv: Option<Text>, harness: Text,
                                       dedupeFields: seq<Text>, auditOptions: seq<int>)

  datatype Pricing = Pricing(complexityScore: int, verificationUnits: int)
  type PriceList = Text -> Option<Pricing>

  /** What the seed writes of a row, scores apart. */
  datatype Data<C> = Data(contract: C, platform: bool, verification: Verification, usageCount: int)

  /** A row: `others` stands for the columns that the seed never names. */
  datatype Row<C, O> = Row(data: Data<C>, complexityScore: Option<int>, verificationUnits: Option<int>, others: O)

  type Rows<C, O> = map<Text, Row<C, O>>

  function ToData<C>(schema: Schema<C>): Data<C> {
    var env := if schema.executionEnv != [] then Some(schema.executionEnv) else None;
    Data(schema.contract, true,
         Verification(schema.pipeline, env, schema.datasetType, schema.dedupeFields, schema.auditOptions), 0)
  }

  /** A row's data mirror a catalog file: what the file says, the file's own id as harness, and a count of nought. */
  predicate Mirrors<C(==)>(data: Data<C>, file: Schema<C>) {
    && data.contract == file.contract && data.platform && data.usageCount == 0
    && data.verification.pipeline == file.pipeline && data.verification.harness == file.datasetType
    && data.verification.dedupeFields == file.dedupeFields && data.verification.auditOptions == file.auditOptions
    && if file.executionEnv == [] then data.verification.executionEnv == None
       else data.verification.executionEnv == Some(file.executionEnv)
  }

  lemma DataMirrors<C>(file: Schema<C>)
    ensures Mirrors(ToData(file), file)
  {
  }

  function Created<C, O>(schema: Schema<C>, pricing: Option<Pricing>, blank: O): Row<C, O> {
    match pricing
    case Some(p) => Row(ToData(schema), Some(p.complexityScore), Some(p.verificationUnits), blank)
    case None => Row(ToData(schema), None, None, blank)
  }

  predicate NeedsPricing<C, O>(row: Row<C, O>) { row.complexityScore.None? && row.verificationUnits.None? }

  function Updated<C, O>(row: Row<C, O>, schema: Schema<C>, pricing: Option<Pricing>): Row<C, O> {
    if NeedsPricing(row) && pricing.Some? then
      Row(ToData(schema), Some(pricing.value.complexityScore), Some(pricing.value.verificationUnits), row.others)
    else row.(data := ToData(schema))
  }

  function SeedOne<C, O>(rows: Rows<C, O>, schema: Schema<C>, prices: PriceList, blank: O): Rows<C, O> {
    var id := schema.datasetType;
    rows[id := if id in rows then Updated(rows[id], schema, prices(id)) else Created(schema, prices(id), blank)]
  }

  function Seeded<C, O>(rows: Rows<C, O>, catalog: seq<Schema<C>>, prices: PriceList, blank: O): Rows<C, O> {
    if catalog == [] then rows else
    var n := |catalog| - 1;
    SeedOne(Seeded(rows, catalog[..n], prices, blank), catalog[n], prices, blank)
  }

  function Ids<C>(catalog: seq<Schema<C>>): set<Text> { set i | 0 <= i < |catalog| :: catalog[i].datasetType }

  lemma IdsGrow<C>(catalog: seq<Schema<C>>, i: nat)
    requires i < |catalog|
    ensures Ids(catalog[..i + 1]) == Ids(catalog[..i]) + {catalog[i].datasetType}
  {}

  lemma Added(known: set<Text>, before: set<Text>, id: Text)
    ensures |(before + {id}) - known| == |before - known| + if id in known + before then 0 else 1
  {
    if id in known + before { assert (before + {id}) - known == before - known; }
    else { assert (before + {id}) - known == (before - known) + {id}; }
  }

  lemma SeededGrows<C, O>(rows: Rows<C, O>, catalog: seq<Schema<C>>, i: nat, prices: PriceList, blank: O)
    requires i < |catalog|
    ensures Seeded(rows, catalog[..i + 1], prices, blank)
         == SeedOne(Seeded(rows, catalog[..i], prices, blank), catalog[i], prices, blank)
  {
    hide SeedOne;
    assert catalog[..i + 1][..i] == catalog[..i];
  }

  lemma NoneYet<C, O>(rows: Rows<C, O>, catalog: seq<Schema<C>>, prices: PriceList, blank: O)
    ensures Seeded(rows, catalog[..0], prices, blank) == rows
    ensures Ids(catalog[..0]) - rows.Keys == {}
  {}

  lemma {:induction false} SeededKeys<C, O>(
      rows: Rows<C, O>, catalog: seq<Schema<C>>, i: nat, prices: PriceList, blank: O)
    requires i <= |catalog|
    ensures Seeded(rows, catalog[..i], prices, blank).Keys == rows.Keys + Ids(catalog[..i])
  {
    if i == 0 { NoneYet(rows, catalog, prices, blank); }
    else {
      SeededKeys(rows, catalog, i - 1, prices, blank);
      hide Ids, Seeded;
      SeededGrows(rows, catalog, i - 1, prices, blank);
      IdsGrow(catalog, i - 1);
    }
  }

  /** One round of the loop: the table it leaves, and whether one more new id has been met. */
  lemma OneRound<C, O>(rows: Rows<C, O>, catalog: seq<Schema<C>>, i: nat, prices: PriceList, blank: O)
    requires i < |catalog|
    ensures var before := Seeded(rows, catalog[..i], prices, blank);
            && Seeded(rows, catalog[..i + 1], prices, blank) == SeedOne(before, catalog[i], prices, blank)
            && |Ids(catalog[..i + 1]) - rows.Keys|
            == |Ids(catalog[..i]) - rows.Keys| + if catalog[i].datasetType in before then 0 else 1
  {
    hide Ids, Seeded, SeedOne;
    SeededGrows(rows, catalog, i, prices, blank);
    IdsGrow(catalog, i);
    SeededKeys(rows, catalog, i, prices, blank);
    Added(rows.Keys, Ids(catalog[..i]), catalog[i].datasetType);
  }

  class DatasetTypes<C(==), O(==)> {
    var rows: Rows<C, O>

    constructor (rows: Rows<C, O>)
      ensures this.rows == rows
    {
      this.rows := rows;
    }

    /** `blank` holds the defaults of the columns the seed never names. */
    method Seed(catalog: seq<Schema<C>>, prices: PriceList, blank: O) returns (created: nat, updated: nat)
      modifies this
      ensures rows == Seeded(old(rows), catalog, prices, blank)
      ensures created + updated == |catalog|
      ensures created == |Ids(catalog) - old(rows).Keys|
    {
      hide Ids, Seeded, Created, Updated;
      created, updated := 0, 0;
      NoneYet(old(rows), catalog, prices, blank);
      for i := 0 to |catalog|
        invariant rows == Seeded(old(rows), catalog[..i], prices, blank)
        invariant created + updated == i
        invariant created == |Ids(catalog[..i]) - old(rows).Keys|
      {
        var schema := catalog[i];
        var id := schema.datasetType;
        OneRound(old(rows), catalog, i, prices, blank);
        ghost var next := SeedOne(rows, schema, prices, blank);
        if id in rows {
          rows := rows[id := Updated(rows[id], schema, prices(id))];
          updated := updated + 1;
        } else {
          rows := rows[id := Created(schema, prices(id), blank)];
          created := created + 1;
        }
        assert rows == next;
      }
      assert catalog[..|catalog|] == catalog;
    }
  }

  /** The last file for an id. */
  function Last<C>(catalog: seq<Schema<C>>, id: Text): (schema: Schema<C>)
    requires id in Ids(catalog)
    ensures schema in catalog && schema.datasetType == id
  {
    var n := |catalog| - 1;
    if catalog[n].datasetType == id then catalog[n] else
    assert catalog == catalog[..n] + [catalog[n]];
    Last(catalog[..n], id)
  }

  /**
   The whole effect of a run on the row of one id. Outside the catalog nothing happens. Inside it the data
   is that of the file, and no column the seed never names moves. A score that an admin has set stays,
   with its partner, even a missing one; a row with neither gets the price list's, if it has one.
  */
  lemma {:induction false} SeededRow<C, O>(
      rows: Rows<C, O>, catalog: seq<Schema<C>>, prices: PriceList, blank: O, id: Text)
    ensures var after := Seeded(rows, catalog, prices, blank);
            && after.Keys == rows.Keys + Ids(catalog)
            && (id in rows && id !in Ids(catalog) ==> after[id] == rows[id])
            && (id in Ids(catalog) ==>
                  var row, price := after[id], prices(id);
                  && Mirrors(row.data, Last(catalog, id)) && row.data == ToData(Last(catalog, id))
                  && row.others == (if id in rows then rows[id].others else blank)
                  && if id in rows && !NeedsPricing(rows[id]) then
                       && row.complexityScore == rows[id].complexityScore
                       && row.verificationUnits == rows[id].verificationUnits
                     else
                       && row.complexityScore == (if price.Some? then Some(price.value.complexityScore) else None)
                       && row.verificationUnits == (if price.Some? then Some(price.value.verificationUnits) else None))
  {
    if catalog == [] { NoneYet(rows, catalog, prices, blank); return; }
    var n := |catalog| - 1;
    SeededRow(rows, catalog[..n], prices, blank, id);
    assert catalog[..n + 1] == catalog;
    IdsGrow(catalog, n);
    DataMirrors(catalog[n]);
    hide Ids, ToData, Mirrors;
  }

  /** A second run changes no row, even when two files name one id. */
  lemma SeededTwice<C, O>(rows: Rows<C, O>, catalog: seq<Schema<C>>, prices: PriceList, blank: O, blank': O)
    ensures var once := Seeded(rows, catalog, prices, blank);
            Seeded(once, catalog, prices, blank') == once
  {
    var once := Seeded(rows, catalog, prices, blank);
    var twice := Seeded(once, catalog, prices, blank');
    forall id: Text
      ensures id in twice.Keys <==> id in once.Keys
      ensures id in once ==> id in twice && twice[id] == once[id]
    {
      SeededRow(rows, catalog, prices, blank, id);
      SeededRow(once, catalog, prices, blank', id);
    }
  }
}
