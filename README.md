# WID loaders: partitioned fact table and metadata consolidation

This project models, in Dafny, the two loader scripts that build the
World Inequality Database store in PostgreSQL.

- `load_data_postgres.py` resets the fact table `global_data`, which is
  partitioned by list on `country`. It reads the country codes of the
  reference file. For each code it creates a partition, a year index (and
  runs CLUSTER on the still-empty partition) and bulk-loads the code's data file. A code
  that fails is reported and the loop moves on.
- `load_metadata_postgres.py` recreates the staging table
  `variable_metadata_raw` and fills it from every `WID_metadata_*.csv` file.
  It then builds `wid_global_data` as a LEFT JOIN of the fact table with the
  staging table, and `variable_metadata` as a `SELECT DISTINCT` over 12 of the
  17 metadata columns.

Files:

| file | module | what it holds |
|---|---|---|
| `wrappers.dfy` | `Wrappers` | `Option`, `Result` |
| `sequences.dfy` | `Sequences` | null dropping, first-occurrence deduplication (pandas `unique()`, SQL `DISTINCT`), concatenation |
| `partition_naming.dfy` | `PartitionNaming` | key normalisation; partition, index and COPY source names |
| `provisioning.dfy` | `Provisioning` | the catalog store, the three per-code steps, the loop as a fold, and class `FactDatabase`, whose methods are the script's `cur.execute` calls and its loop |
| `metadata_loading.dfy` | `MetadataLoading` | the 17 columns, the file filter, the staging rows, and the staging table a directory listing produces |
| `consolidation.dfy` | `Consolidation` | the LEFT JOIN and the deduplicated dimension table |
| `metadata_pipeline.dfy` | `MetadataPipeline` | class `MetadataDatabase`: the nested load loops and the two `CREATE TABLE ... AS` steps |

Modelling choices:

- **Catalog store.** The fact loader's store is the catalog's single
  namespace of relation names: the parent table, partitions (each bound to
  the original, un-normalised code) and year indexes. It also keeps the
  sequence of COPY loads that succeeded. Creating a name that exists fails.
  So does binding a code that is already bound, or creating a partition
  while the parent table is missing.
- **Failures as input.** What makes a statement fail from outside (a
  missing data file, a malformed row, a refused CLUSTER) is an input: the set
  of (code, step) pairs the environment rejects.
- **Multi-statement executes.** One `execute` that holds several statements
  (the reset's DROP + CREATE, the index's CREATE INDEX + CLUSTER) runs as one
  implicit transaction, so a failed one changes nothing. Autocommit keeps
  every statement that succeeded.
- **NULL.** Staging values are nullable SQL TEXT (`Option<string>`). The join
  uses SQL equality, under which NULL equals nothing (SQL standard ISO/IEC
  9075). The loader itself never stages a NULL, because pandas' `fillna('')`
  runs first.
- **Row order.** SQL promises no order for the join or `DISTINCT` results.
  The model fixes one order (fact order, then staging order, and first
  occurrence), and the lemmas speak about which rows appear and how often.
- **Fact rows are an input.** The metadata side takes the rows of
  `global_data` as an input sequence. The join reads `global_data` whatever
  the function's parameters say, because the name is written into the query.
- **Aborting reads.** A metadata file that cannot be read ends the run:
  later files are not attempted, earlier files stay committed, and the
  derived tables are not rebuilt. A metadata directory that cannot be listed
  ends the run just after the staging table has been recreated empty. A
  reference file that cannot be read ends the fact loader's run just after
  the reset.
- **Derived tables are transactional.** The metadata connection is not in
  autocommit mode. A derived table's DROP and CREATE are committed together,
  so when `global_data` does not exist the join fails and `wid_global_data`
  keeps its old rows. The dimension table is then not rebuilt either.
- **CLUSTER orders an empty partition.** In the fact loader, CLUSTER runs on
  each partition before the COPY fills it, so the rows loaded afterwards are
  not clustered. The partition does keep its year index as its clustering
  index, which a later plain `CLUSTER` uses; the model records only that the
  index exists.

## Model

| member | source | states |
|---|---|---|
| PartitionNaming.Normalize | load_data_postgres.py:69 | the key has the code's length and contains no `-` and no upper-case ASCII letter |
| PartitionNaming.NormalizeFixesExactlyNormalized | load_data_postgres.py:69 | normalisation leaves a string unchanged if and only if it is already a valid key |
| PartitionNaming.NormalizeIdempotent | load_data_postgres.py:69 | normalising twice equals normalising once |
| PartitionNaming.NormalizeExamples | load_data_postgres.py:69 | `US-WA` becomes `us_wa` and `FR` becomes `fr` |
| PartitionNaming.NormalizeNotInjective | load_data_postgres.py:69 | two different codes (`US-WA`, `us_wa`) share one partition key |
| PartitionNaming.DerivedNamesCollideTogether | load_data_postgres.py:36-44 | two codes get the same partition name, and the same index name, exactly when they normalise alike |
| PartitionNaming.CopySourceInjective | load_data_postgres.py:46-48 | the COPY source path uses the original code, so two codes share a data file only if they are equal |
| PartitionNaming.DerivedNamesAvoidParent | load_data_postgres.py:36-44 | no partition or index name is `global_data`, and a code's index name differs from its partition name |
| Sequences.DropNulls | load_data_postgres.py:63 | `dropna()` keeps exactly the present values and never lengthens the column |
| Sequences.Unique | load_data_postgres.py:63 | `unique()` has no duplicates, has exactly the input's values and is no longer than the input |
| Sequences.UniqueKeepsFirstOccurrenceOrder | load_data_postgres.py:63 | `unique()` lists values in the order of their first occurrence in the input |
| Sequences.DropNullsKeepsOrder | load_data_postgres.py:63 | dropping nulls keeps the relative order of first occurrences |
| Provisioning.CodeList | load_data_postgres.py:63 | the code list has no duplicates and holds exactly the non-null codes of the column |
| Provisioning.CodeListKeepsColumnOrder | load_data_postgres.py:63 | the code list keeps the order in which codes first appear in the column |
| PartitionNaming.PartitionName | load_data_postgres.py:36-38 | `global_data_` + the normalised code; contract carried by DerivedNamesCollideTogether and DerivedNamesAvoidParent |
| PartitionNaming.IndexName | load_data_postgres.py:41-43 | the partition name + `_year_idx`; contract carried by DerivedNamesCollideTogether and DerivedNamesAvoidParent |
| PartitionNaming.CopySource | load_data_postgres.py:46-48 | `/data/WID_data_` + the original code + `.csv`; contract carried by CopySourceInjective |
| Provisioning.CreateTable | load_data_postgres.py:36-39 | the partition statement: refused when injected, when the parent is missing, when the name exists or when the code is already bound; contract carried by AttemptEffects and LaterCollidingCodeRejected |
| Provisioning.CreateIndex | load_data_postgres.py:41-44 | the index and CLUSTER batch: needs the partition and a free index name; contract carried by AttemptEffects |
| Provisioning.CopyRows | load_data_postgres.py:46-48 | the COPY: needs the partition and records a load from the original code's file; contract carried by AttemptEffects and CompletedCodeProvisioned |
| Provisioning.Attempt | load_data_postgres.py:74-80 | the try block: create, index, copy, stopping at the first failure; contract carried by AttemptEffects, AttemptFootprint and AttemptOnFreeNames |
| Provisioning.ProvisionAll | load_data_postgres.py:68-80 | the loop as a fold with one outcome per code; its properties are carried by EveryCodeAttempted, PrefixStoreKept, IsolatedOutcomes and LaterCollidingCodeRejected |
| Provisioning.Failures | load_data_postgres.py:79-80 | the error lines, no more than the codes and each naming a listed code; exactness carried by FailureReportedOnce |
| Provisioning.ResetStore | load_data_postgres.py:23-34 | after the reset, the parent table exists with no partitions, no bound codes and no loads |
| Provisioning.AttemptEffects | load_data_postgres.py:74-80 | one pass of create, then index, then copy stops at its first failure; nothing that existed changes; a failed CREATE changes nothing; a failed CREATE INDEX + CLUSTER batch leaves only the new partition and no index; a created partition is bound to the original code; the index exists once the second step succeeds; the load is recorded only when all three succeed |
| Provisioning.EveryCodeAttempted | load_data_postgres.py:68-80 | the i-th code is attempted from the store the earlier codes left, whatever their outcomes |
| Provisioning.FailureReportedOnce | load_data_postgres.py:79-80 | in a duplicate-free code list, a code is reported exactly once if it failed (with the failing step) and never if it completed |
| Provisioning.PrefixStoreKept | load_data_postgres.py:54 | under autocommit, later codes never remove or alter what earlier codes created or loaded |
| Provisioning.LaterCollidingCodeRejected | load_data_postgres.py:69-76 | if a later code normalises like an earlier code whose partition was created, the later code fails at CREATE and the partition stays bound to the earlier code to the end |
| Provisioning.CompletedCodeProvisioned | load_data_postgres.py:74-78 | a completed code ends with its partition bound to it, its year index and its load from its own data file |
| Provisioning.AttemptFootprint | load_data_postgres.py:74-78 | one attempt adds only the code's two derived names and binds only the code itself |
| Provisioning.AttemptOnFreeNames | load_data_postgres.py:74-78 | a code whose names are free stops only at its own faults |
| Provisioning.FootprintOfPrefix | load_data_postgres.py:68-80 | after a reset and some codes, every relation is the parent or a name derived from one of those codes |
| Provisioning.IsolatedOutcomes | load_data_postgres.py:68-80 | after a reset, when derived names do not clash, each code's outcome depends only on its own faults |
| Provisioning.OneBadFileIsolated | load_data_postgres.py:74-80 | with one bad data file, only its code fails (at COPY), every other code completes, and the report is that single failure |
| Provisioning.SingleFailureReported | load_data_postgres.py:79-80 | a loop with one failed code reports exactly that code and step |
| Provisioning.NoFailureReported | load_data_postgres.py:79-80 | a loop where every code completed reports nothing |
| Provisioning.FactDatabase.ResetFactTable | load_data_postgres.py:57-58 | the reset succeeds unless refused; on success the store is the empty partitioned parent, otherwise unchanged |
| Provisioning.FactDatabase.CreatePartition | load_data_postgres.py:36-39 | the CREATE statement succeeds exactly when the model's creation rule allows it, and then applies it; otherwise nothing changes |
| Provisioning.FactDatabase.IndexAndCluster | load_data_postgres.py:41-44 | the index batch succeeds exactly when the partition exists and the index name is free, and then adds the index; otherwise nothing changes |
| Provisioning.FactDatabase.Copy | load_data_postgres.py:46-48 | the COPY succeeds exactly when the partition exists and the file is accepted, and then records the load from the original code's file |
| Provisioning.FactDatabase.ProvisionCode | load_data_postgres.py:74-80 | the try block's new store and outcome are those of one attempt |
| Provisioning.FactDatabase.ProvisionCodes | load_data_postgres.py:68-80 | the loop leaves the fold's store and returns the error lines of the fold's outcomes, in order |
| Provisioning.FactDatabase.LoadFactData | load_data_postgres.py:51-85 | a refused reset aborts with nothing changed; an unreadable reference column aborts just after the reset; otherwise the store and report are those of provisioning the column's code list from a fresh reset |
| MetadataLoading.Position | load_metadata_postgres.py:22-26 | each column sits at its index in `METADATA_COLUMNS` |
| MetadataLoading.ColumnsAreDistinct | load_metadata_postgres.py:22-26 | there are 17 columns, each at its own position, with pairwise distinct names |
| MetadataLoading.MetadataFileNamePattern | load_metadata_postgres.py:57 | a file is picked up if and only if its name is `WID_metadata_` + something + `.csv` |
| MetadataLoading.ShortNamesRejected | load_metadata_postgres.py:57 | an accepted name is long enough to hold both the prefix and the suffix |
| MetadataLoading.IsMetadataFile | load_metadata_postgres.py:57 | the file filter; contract carried by MetadataFileNamePattern |
| MetadataLoading.ReadMetadataFile | load_metadata_postgres.py:60 | fails on an unparseable file or a missing column; contract carried by StagingIsConcatenation and FailedLoadKeepsEarlierFiles |
| MetadataLoading.StageDirectory | load_metadata_postgres.py:31-70 | the staging table a listing produces; contract carried by StagingIsConcatenation, ErrorIsFinal, FailedLoadKeepsEarlierFiles and StagedRowsWellFormed |
| MetadataLoading.LoadDirectory | load_metadata_postgres.py:31-70 | a directory that cannot be listed leaves the staging table empty with an error; otherwise StageDirectory; contract carried by MetadataDatabase.LoadAllMetadata |
| MetadataLoading.StageFields | load_metadata_postgres.py:60-61 | each field is the row's value for its column, or `''` when the value is missing; none is NULL |
| MetadataLoading.StageRow | load_metadata_postgres.py:66-69 | a staged row has the 17 fields, none NULL |
| MetadataLoading.StageRows | load_metadata_postgres.py:65-69 | one staged row per CSV row, in order |
| MetadataLoading.AcceptedRowsAppend | load_metadata_postgres.py:56-70 | one more directory entry appends exactly its own contribution |
| MetadataLoading.StagingIsConcatenation | load_metadata_postgres.py:31-70 | loading succeeds if and only if every accepted file can be read; the staging table is then the accepted files' rows concatenated in listing order, and its size is the sum of their row counts |
| MetadataLoading.ErrorIsFinal | load_metadata_postgres.py:56-60 | once a read error stops the loop, later entries change nothing |
| MetadataLoading.FailedLoadKeepsEarlierFiles | load_metadata_postgres.py:56-70 | a failed load names the first unreadable accepted file, and staging holds exactly the rows of the accepted files before it |
| MetadataLoading.StagedRowsWellFormed | load_metadata_postgres.py:60-69 | every staged row has 17 fields and no NULL |
| Consolidation.Matches | load_metadata_postgres.py:88-94 | the matches of a fact row are exactly the staging rows equal to it on all four keys under SQL equality, each as many times as it occurs in staging, and there are none exactly when no staging row joins |
| Consolidation.EnrichWith | load_metadata_postgres.py:78-85 | one output row per match, carrying the fact's key and that match's unit, source and method |
| Consolidation.EnrichFact | load_metadata_postgres.py:76-94 | the rows one fact row contributes to the join; contract carried by EnrichFactRows, EnrichFactNulls and NullKeyNeverMatches |
| Consolidation.LeftJoin | load_metadata_postgres.py:76-94 | the LEFT JOIN; contract carried by LeftJoinCardinality, LeftJoinKeepsEveryFact and NullExactlyWithoutMatch |
| Consolidation.EnrichFactRows | load_metadata_postgres.py:76-94 | a fact row yields max(1, m) rows for m matches; each keeps the fact's key; with no match it yields one row of NULLs, otherwise each row carries a matching row's unit, source and method |
| Consolidation.LeftJoinCardinality | load_metadata_postgres.py:86-94 | the join has, summed over fact rows, max(1, number of matches) rows |
| Consolidation.LeftJoinKeepsEveryFact | load_metadata_postgres.py:76-94 | every fact key appears in the join, and every joined row carries some fact's key |
| Consolidation.NullExactlyWithoutMatch | load_metadata_postgres.py:83-94 | with no NULLs staged, a joined row's unit is NULL exactly when no staging row matches its key, and unit, source and method are NULL together |
| Consolidation.EnrichFactNulls | load_metadata_postgres.py:83-94 | with no NULLs staged, each row one fact row yields has NULL unit exactly when no staging row matches its key, with source and method NULL together with it |
| Consolidation.NullKeyNeverMatches | load_metadata_postgres.py:90-94 | a fact row with NULL age or pop yields exactly one row of NULLs |
| Consolidation.NondupColumnsFilterMetadataColumns | load_metadata_postgres.py:105 | `nondup_cols` holds exactly the 12 columns not excluded, in their original order |
| Consolidation.Project | load_metadata_postgres.py:109 | a projection has one field per column, taken from that column |
| Consolidation.ProjectAll | load_metadata_postgres.py:107-110 | every staging row's projection is present, and every projection comes from a staging row |
| Consolidation.DistinctProjection | load_metadata_postgres.py:107-111 | `SELECT DISTINCT` has no two equal rows; every row is the projection of a staging row; every staging row's projection is a row |
| Consolidation.DeduplicatedMetadata | load_metadata_postgres.py:104-111 | the dimension table has no two equal rows, each row has 12 fields, every row is the `nondup_cols` projection of a staging row, and every staging row's projection is a row |
| Consolidation.SameProjection | load_metadata_postgres.py:109 | rows that agree on the projected columns project to the same row |
| Consolidation.DistinctOfEqualProjections | load_metadata_postgres.py:107-111 | staging rows with a common projection leave exactly that one row |
| Consolidation.DistinctOfAgreeingRows | load_metadata_postgres.py:107-111 | two rows that agree on the projected columns leave one row |
| Consolidation.DimensionIgnoresExcludedColumns | load_metadata_postgres.py:104-111 | two metadata rows that differ only in excluded columns (unit, source, method, ...) collapse to one dimension row |
| Sequences.UniqueOfRepeated | load_metadata_postgres.py:109 | a sequence of one repeated value deduplicates to that value alone |
| MetadataPipeline.MetadataDatabase.LoadAllMetadata | load_metadata_postgres.py:28-70 | the staging table and error become those of LoadDirectory (empty with an error for an unlistable directory), every staged row is well formed with no NULL field, and the other tables are unchanged |
| MetadataPipeline.MetadataDatabase.InsertRows | load_metadata_postgres.py:64-70 | the insert loop appends the file's staged rows in order |
| MetadataPipeline.MetadataDatabase.CreateGlobalDataUnits | load_metadata_postgres.py:72-96 | succeeds exactly when `global_data` exists, and the enriched table then becomes the LEFT JOIN of its rows with the staging table; on failure nothing changes |
| MetadataPipeline.MetadataDatabase.CreateDeduplicatedMetadata | load_metadata_postgres.py:99-113 | the dimension table becomes the distinct projection of the staging table |
| MetadataPipeline.MetadataDatabase.RunPipeline | load_metadata_postgres.py:117-132 | the staging table is always the load's result; a load error or a missing `global_data` ends the run with both derived tables untouched; otherwise both are rebuilt from the loaded staging table, whose rows hold no NULL, so the NULL-unit property of the LEFT JOIN applies to the enriched table |

## Left out

- Argument parsing, environment variables, credentials and connection setup (`load_data_postgres.py:8-20`, `load_metadata_postgres.py:9-19`): configuration I/O.
- CSV parsing by pandas and the psycopg2 driver are foreign libraries. Parsed files are inputs: a header set and rows of optional cells, or nothing when the file cannot be parsed.
- What COPY, CREATE INDEX and CLUSTER do to storage: each is a step that succeeds or fails. The model records only the index's name and the fact that a load from a given file happened.
- The clustering mark CLUSTER leaves in the catalog: the partition remembers its year index as the index a later plain `CLUSTER` reorders it by. The model does not record this mark.
- Progress and error messages from `print`, including the unconditional "successfully" line. Each error line is modelled as a `Failure` (code and step) in the returned report. The exception text is not modelled.
- PartitionNaming.Normalize: models `lower()` over ASCII only; other characters are left unchanged, whereas Python lower-cases every Unicode letter.
- Identifier quoting and SQL injection through the formatted statements.
- PartitionNaming.PartitionName: PostgreSQL truncates identifiers to 63 bytes (with a NOTICE, not an error); the name `global_data_` + key is modelled untruncated, which differs only for codes longer than 51 bytes. Two such codes that agree on their first 51 normalised bytes share a partition name in the database, so DerivedNamesCollideTogether, NoNameClash, IsolatedOutcomes and OneBadFileIsolated speak of the model's names, not of the database's, for them.
- PartitionNaming.IndexName: the same 63-byte truncation is not modelled for `global_data_` + key + `_year_idx`; it differs only for codes longer than 42 bytes, with the same consequence for the lemmas above.
- The NUMERIC `value` column of the fact table: no property depends on it.
- The loading of `global_data` partitions is not connected to the metadata side. Its rows are an input to the join.
- A size-ranked metadata loader with a (variable, age, pop) duplicate-elimination pass is not part of these scripts, so it is not modelled.
- Parallel execution: both scripts are sequential.
- A failing INSERT during the metadata load is not modelled; only read failures (an unlistable directory, an unparseable file, a missing column) are.
- pandas' default NA parsing reads some cell texts as missing, among them the code `NA` (Namibia), which `dropna()` then drops from the code list. The model takes the parsed column as input, so such a code arrives as `None`; which texts pandas treats as missing is not modelled.
- The order of rows produced by the join and by `DISTINCT`: SQL leaves it open, and the model fixes one.
