/**
 * The two derived tables built from the staging table: the fact rows enriched
 * with unit, source and method by a LEFT JOIN, and the deduplicated
 * dimension table, a SELECT DISTINCT over a projection.
 *
 * Rows are given in some order; SQL promises none, so the properties below
 * are about which rows appear and how many times.
 */
module Consolidation {
  import opened Wrappers
  import opened Sequences
  import opened MetadataLoading

  /** A row of the fact table; its NUMERIC `value` is not modelled. */
  datatype FactRow = FactRow(country: string, variable: string, percentile: string, year: int, age: SqlText, pop: SqlText)

  /** A row of the enriched table; `methodology` holds the `method` column. */
  datatype EnrichedRow = EnrichedRow(
    country: string, variable: string, age: SqlText, pop: SqlText,
    unit: SqlText, source: SqlText, methodology: SqlText)

  predicate WellFormed(m: MetadataRow)
  {
    |m| == |MetadataColumns|
  }

  predicate TableWellFormed(staging: seq<MetadataRow>)
  {
    forall m :: m in staging ==> WellFormed(m)
  }

  /** The value of a column of a staging row. */
  function Column(m: MetadataRow, c: MetadataColumn): SqlText
    requires WellFormed(m)
  {
    m[Position(c)]
  }

  /** SQL `=` on TEXT, read in a WHERE or ON clause: NULL compares equal to nothing. */
  predicate SqlEquals(a: SqlText, b: SqlText)
  {
    a.Some? && b.Some? && a.value == b.value
  }

  /** The join condition on (country, variable, age, pop). */
  predicate KeyJoins(country: string, variable: string, age: SqlText, pop: SqlText, m: MetadataRow)
    requires WellFormed(m)
  {
    && SqlEquals(Some(country), Column(m, Country))
    && SqlEquals(Some(variable), Column(m, Variable))
    && SqlEquals(age, Column(m, Age))
    && SqlEquals(pop, Column(m, Pop))
  }

  predicate Joins(d: FactRow, m: MetadataRow)
    requires WellFormed(m)
  {
    KeyJoins(d.country, d.variable, d.age, d.pop, m)
  }

  /** The staging rows matching a fact row, in table order, with repetitions. */
  function Matches(d: FactRow, staging: seq<MetadataRow>): (ms: seq<MetadataRow>)
    requires TableWellFormed(staging)
    ensures |ms| <= |staging|
    ensures forall m :: m in ms <==> m in staging && Joins(d, m)
    ensures ms == [] <==> forall m :: m in staging ==> !Joins(d, m)
    ensures forall m :: multiset(ms)[m] == if m in staging && Joins(d, m) then multiset(staging)[m] else 0
  {
    if staging == [] then []
    else
      assert staging == [staging[0]] + staging[1..];
      (if Joins(d, staging[0]) then [staging[0]] else []) + Matches(d, staging[1..])
  }

  /** The output row pairing a fact row with a metadata row, or with NULLs. */
  function Enriched(d: FactRow, unit: SqlText, source: SqlText, methodology: SqlText): EnrichedRow
  {
    EnrichedRow(d.country, d.variable, d.age, d.pop, unit, source, methodology)
  }

  function EnrichWith(d: FactRow, ms: seq<MetadataRow>): (rows: seq<EnrichedRow>)
    requires TableWellFormed(ms)
    ensures |rows| == |ms|
    ensures forall k :: 0 <= k < |ms| ==>
              rows[k] == Enriched(d, Column(ms[k], Unit), Column(ms[k], Source), Column(ms[k], Method))
  {
    if ms == [] then [] else [Enriched(d, Column(ms[0], Unit), Column(ms[0], Source), Column(ms[0], Method))] + EnrichWith(d, ms[1..])
  }

  /** The rows one fact row contributes to the LEFT JOIN. */
  function EnrichFact(d: FactRow, staging: seq<MetadataRow>): seq<EnrichedRow>
    requires TableWellFormed(staging)
  {
    var ms := Matches(d, staging);
    if ms == [] then [Enriched(d, None, None, None)] else EnrichWith(d, ms)
  }

  /** `global_data d LEFT JOIN staging m ON d.country = m.country AND ... AND d.pop = m.pop`. */
  function LeftJoin(facts: seq<FactRow>, staging: seq<MetadataRow>): seq<EnrichedRow>
    requires TableWellFormed(staging)
  {
    if facts == [] then [] else EnrichFact(facts[0], staging) + LeftJoin(facts[1..], staging)
  }

  function Max1(m: nat): nat
  {
    if m == 0 then 1 else m
  }

  /** A fact row's key, as the enriched row copies it. */
  predicate SameKey(r: EnrichedRow, d: FactRow)
  {
    r.country == d.country && r.variable == d.variable && r.age == d.age && r.pop == d.pop
  }

  /**
   * One fact row yields max(1, m) rows, m the number of matching staging rows;
   * each carries the fact's key unchanged; with no match it is one row of
   * NULLs, otherwise one row per match carrying that match's unit, source and
   * method.
   */
  lemma EnrichFactRows(d: FactRow, staging: seq<MetadataRow>)
    requires TableWellFormed(staging)
    ensures |EnrichFact(d, staging)| == Max1(|Matches(d, staging)|)
    ensures forall r :: r in EnrichFact(d, staging) ==> SameKey(r, d)
    ensures Matches(d, staging) == [] ==> EnrichFact(d, staging) == [Enriched(d, None, None, None)]
    ensures forall r :: r in EnrichFact(d, staging) && Matches(d, staging) != [] ==>
              exists m :: m in staging && Joins(d, m)
                && r.unit == Column(m, Unit) && r.source == Column(m, Source) && r.methodology == Column(m, Method)
  {
    var ms := Matches(d, staging);
    if ms != [] {
      forall r | r in EnrichFact(d, staging)
        ensures SameKey(r, d)
        ensures exists m :: m in staging && Joins(d, m)
                  && r.unit == Column(m, Unit) && r.source == Column(m, Source) && r.methodology == Column(m, Method)
      {
        var k :| 0 <= k < |ms| && EnrichWith(d, ms)[k] == r;
        assert ms[k] in ms;
      }
    }
  }

  /** The number of rows the LEFT JOIN produces. */
  function JoinRowCount(facts: seq<FactRow>, staging: seq<MetadataRow>): nat
    requires TableWellFormed(staging)
  {
    if facts == [] then 0 else Max1(|Matches(facts[0], staging)|) + JoinRowCount(facts[1..], staging)
  }

  /** The LEFT JOIN has, for each fact row, max(1, number of its matches) rows. */
  lemma {:induction false} LeftJoinCardinality(facts: seq<FactRow>, staging: seq<MetadataRow>)
    requires TableWellFormed(staging)
    ensures |LeftJoin(facts, staging)| == JoinRowCount(facts, staging)
  {
    if facts != [] {
      EnrichFactRows(facts[0], staging);
      LeftJoinCardinality(facts[1..], staging);
    }
  }

  /**
   * Every fact row's key appears in the LEFT JOIN (it is never dropped), and
   * every row of the LEFT JOIN carries the key of some fact row.
   */
  lemma {:induction false} LeftJoinKeepsEveryFact(facts: seq<FactRow>, staging: seq<MetadataRow>)
    requires TableWellFormed(staging)
    ensures forall d :: d in facts ==> exists r :: r in LeftJoin(facts, staging) && SameKey(r, d)
    ensures forall r :: r in LeftJoin(facts, staging) ==> exists d :: d in facts && SameKey(r, d)
  {
    if facts != [] {
      var d0 := facts[0];
      EnrichFactRows(d0, staging);
      LeftJoinKeepsEveryFact(facts[1..], staging);
      var head := EnrichFact(d0, staging);
      var tail := LeftJoin(facts[1..], staging);
      assert LeftJoin(facts, staging) == head + tail;
      assert head[0] in head;
      forall d | d in facts ensures exists r :: r in LeftJoin(facts, staging) && SameKey(r, d) {
        if d == d0 {
          assert SameKey(head[0], d);
        } else {
          assert d in facts[1..];
        }
      }
      forall r | r in LeftJoin(facts, staging) ensures exists d :: d in facts && SameKey(r, d) {
        if r in head {
          assert SameKey(r, d0);
        } else {
          var d :| d in facts[1..] && SameKey(r, d);
          assert d in facts;
        }
      }
    }
  }

  /**
   * When no staged value is NULL (as the loader guarantees), an enriched row's
   * unit, source and method are NULL exactly when no staging row matches its
   * key.
   */
  lemma {:induction false} NullExactlyWithoutMatch(facts: seq<FactRow>, staging: seq<MetadataRow>)
    requires TableWellFormed(staging)
    requires forall m :: m in staging ==> NoNulls(m)
    ensures forall r :: r in LeftJoin(facts, staging) ==>
              && (r.unit.None? <==> forall m :: m in staging ==> !KeyJoins(r.country, r.variable, r.age, r.pop, m))
              && r.unit.None? == r.source.None? == r.methodology.None?
  {
    if facts != [] {
      EnrichFactNulls(facts[0], staging);
      NullExactlyWithoutMatch(facts[1..], staging);
      assert LeftJoin(facts, staging) == EnrichFact(facts[0], staging) + LeftJoin(facts[1..], staging);
    }
  }

  /** The rows of one fact row, under the same hypothesis. */
  lemma EnrichFactNulls(d: FactRow, staging: seq<MetadataRow>)
    requires TableWellFormed(staging)
    requires forall m :: m in staging ==> NoNulls(m)
    ensures forall r :: r in EnrichFact(d, staging) ==>
              && (r.unit.None? <==> forall m :: m in staging ==> !KeyJoins(r.country, r.variable, r.age, r.pop, m))
              && r.unit.None? == r.source.None? == r.methodology.None?
  {
    EnrichFactRows(d, staging);
    var ms := Matches(d, staging);
    forall r | r in EnrichFact(d, staging)
      ensures r.unit.None? <==> forall m :: m in staging ==> !KeyJoins(r.country, r.variable, r.age, r.pop, m)
      ensures r.unit.None? == r.source.None? == r.methodology.None?
    {
      assert SameKey(r, d);
      if ms == [] {
        assert r == Enriched(d, None, None, None);
        assert forall m :: m in staging ==> !Joins(d, m);
      } else {
        var m: MetadataRow :| m in staging && Joins(d, m)
                 && r.unit == Column(m, Unit) && r.source == Column(m, Source) && r.methodology == Column(m, Method);
        assert KeyJoins(r.country, r.variable, r.age, r.pop, m);
        assert m[Position(Unit)].Some? && m[Position(Source)].Some? && m[Position(Method)].Some?;
      }
    }
  }


  /** A fact row whose age or pop is NULL never matches: it yields exactly one row of NULLs. */
  lemma NullKeyNeverMatches(d: FactRow, staging: seq<MetadataRow>)
    requires TableWellFormed(staging)
    requires d.age.None? || d.pop.None?
    ensures EnrichFact(d, staging) == [Enriched(d, None, None, None)]
  {
  }

  /** The columns dropped from the dimension table. */
  const ExcludedColumns: seq<MetadataColumn> := [Country, CountryName, Unit, Source, Method]

  /** `nondup_cols`: the metadata columns without the excluded five, in their original order. */
  const NondupColumns: seq<MetadataColumn> := [
    Variable, Age, Pop, ShortName, SimpleDes, TechnicalDes,
    ShortType, LongType, ShortPop, LongPop, ShortAge, LongAge]

  /**
   * `nondup_cols` is `METADATA_COLUMNS` filtered by the exclusion list: it holds
   * exactly the columns not excluded, each once, in their original order.
   */
  lemma NondupColumnsFilterMetadataColumns()
    ensures |NondupColumns| == |MetadataColumns| - |ExcludedColumns| == 12
    ensures forall c :: c in NondupColumns <==> c !in ExcludedColumns
    ensures forall i, j :: 0 <= i < j < |NondupColumns| ==> Position(NondupColumns[i]) < Position(NondupColumns[j])
  {
    forall c ensures c in NondupColumns <==> c !in ExcludedColumns {
      match c
      case Country =>
      case CountryName =>
      case Unit =>
      case Source =>
      case Method =>
      case _ =>
    }
  }

  /** A staging row restricted to some of its columns, in the order given. */
  function Project(m: MetadataRow, columns: seq<MetadataColumn>): (row: seq<SqlText>)
    requires WellFormed(m)
    ensures |row| == |columns|
    ensures forall k :: 0 <= k < |columns| ==> row[k] == Column(m, columns[k])
  {
    if columns == [] then [] else [Column(m, columns[0])] + Project(m, columns[1..])
  }

  function ProjectAll(staging: seq<MetadataRow>, columns: seq<MetadataColumn>): (rows: seq<seq<SqlText>>)
    requires TableWellFormed(staging)
    ensures |rows| == |staging|
    ensures forall k :: 0 <= k < |staging| ==> rows[k] == Project(staging[k], columns)
    ensures forall m :: m in staging ==> Project(m, columns) in rows
    ensures forall row :: row in rows ==> exists m :: m in staging && row == Project(m, columns)
  {
    if staging == [] then [] else [Project(staging[0], columns)] + ProjectAll(staging[1..], columns)
  }

  /**
   * `SELECT DISTINCT <columns> FROM staging`: no two rows are equal, every
   * row is the projection of some staging row, and every staging row's
   * projection is a row.
   */
  function DistinctProjection(staging: seq<MetadataRow>, columns: seq<MetadataColumn>): (rows: seq<seq<SqlText>>)
    requires TableWellFormed(staging)
    ensures Distinct(rows)
    ensures forall row :: row in rows ==> |row| == |columns|
    ensures forall row :: row in rows ==> exists m :: m in staging && row == Project(m, columns)
    ensures forall m :: m in staging ==> Project(m, columns) in rows
  {
    Unique(ProjectAll(staging, columns))
  }

  /** The dimension table: the distinct projections of the staging rows onto `nondup_cols`. */
  function DeduplicatedMetadata(staging: seq<MetadataRow>): (dimension: seq<seq<SqlText>>)
    requires TableWellFormed(staging)
    ensures Distinct(dimension)
    ensures forall row :: row in dimension ==> |row| == 12
    ensures forall row :: row in dimension ==> exists m :: m in staging && row == Project(m, NondupColumns)
    ensures forall m :: m in staging ==> Project(m, NondupColumns) in dimension
  {
    DistinctProjection(staging, NondupColumns)
  }

  /** Rows that agree on some columns project to the same row on them. */
  lemma SameProjection(m1: MetadataRow, m2: MetadataRow, columns: seq<MetadataColumn>)
    requires WellFormed(m1) && WellFormed(m2)
    requires forall c :: c in columns ==> Column(m1, c) == Column(m2, c)
    ensures Project(m1, columns) == Project(m2, columns)
  {
    assert forall k :: 0 <= k < |columns| ==> columns[k] in columns;
  }

  /** Staging rows that all project to the same row leave exactly that row. */
  lemma DistinctOfEqualProjections(staging: seq<MetadataRow>, columns: seq<MetadataColumn>)
    requires TableWellFormed(staging) && staging != []
    requires forall m :: m in staging ==> Project(m, columns) == Project(staging[0], columns)
    ensures DistinctProjection(staging, columns) == [Project(staging[0], columns)]
  {
    UniqueOfRepeated(ProjectAll(staging, columns), Project(staging[0], columns));
  }

  /** Two rows that agree on the projected columns leave one row after DISTINCT. */
  lemma DistinctOfAgreeingRows(m1: MetadataRow, m2: MetadataRow, columns: seq<MetadataColumn>)
    requires WellFormed(m1) && WellFormed(m2)
    requires forall c :: c in columns ==> Column(m1, c) == Column(m2, c)
    ensures DistinctProjection([m1, m2], columns) == [Project(m1, columns)]
  {
    SameProjection(m1, m2, columns);
    DistinctOfEqualProjections([m1, m2], columns);
  }

  /**
   * Rows that differ only in excluded columns (unit, source, method, ...)
   * collapse to one dimension row: the table does not keep units apart.
   */
  lemma DimensionIgnoresExcludedColumns(m1: MetadataRow, m2: MetadataRow)
    requires WellFormed(m1) && WellFormed(m2)
    requires forall c :: c !in ExcludedColumns ==> Column(m1, c) == Column(m2, c)
    ensures DeduplicatedMetadata([m1, m2]) == [Project(m1, NondupColumns)]
  {
    NondupColumnsFilterMetadataColumns();
    DistinctOfAgreeingRows(m1, m2, NondupColumns);
  }
}
