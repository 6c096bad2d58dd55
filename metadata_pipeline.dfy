/**
 * The metadata loader as the script runs it against one database: the
 * staging table is dropped, recreated and filled file by file, row by row;
 * then the enriched table and the dimension table are rebuilt from it.
 *
 * A directory that cannot be listed, or a metadata file that cannot be read,
 * raises an exception the script does not catch, so the run ends there: the
 * rows committed before stay in the staging table and the two derived tables
 * are not rebuilt.
 *
 * The connection is not in autocommit mode: the DROP and CREATE of a derived
 * table form one transaction, committed only when both succeed. When
 * `global_data` does not exist, the CREATE fails, the run ends uncommitted,
 * and the old derived tables stay as they were.
 */
module MetadataPipeline {
  import opened Wrappers
  import opened MetadataLoading
  import opened Consolidation

  class MetadataDatabase {
    /** `variable_metadata_raw`. */
    var staging: seq<MetadataRow>
    /** `wid_global_data`. */
    var enriched: seq<EnrichedRow>
    /** `variable_metadata`. */
    var dimension: seq<seq<SqlText>>

    /** Every staging row has the 17 metadata columns, none of them NULL. */
    predicate Valid()
      reads this
    {
      TableWellFormed(staging) && forall m :: m in staging ==> NoNulls(m)
    }

    constructor ()
      ensures staging == [] && enriched == [] && dimension == []
      ensures Valid()
    {
      staging := [];
      enriched := [];
      dimension := [];
    }

    /**
     * `load_all_metadata_to_global_table`: recreates the staging table empty,
     * then, when the directory can be listed, inserts the rows of each
     * accepted file of the listing, in listing order, stopping at the first
     * file that cannot be read.
     */
    method LoadAllMetadata(directory: Option<seq<DirEntry>>) returns (error: Option<LoadError>)
      modifies this
      ensures staging == LoadDirectory(directory).rows
      ensures error == LoadDirectory(directory).error
      ensures enriched == old(enriched) && dimension == old(dimension)
      ensures Valid()
    {
      staging := [];
      if directory.None? {
        return Some(UnlistableDirectory);
      }
      var listing := directory.value;
      StagedRowsWellFormed(listing);
      var i := 0;
      while i < |listing|
        invariant 0 <= i <= |listing|
        invariant StageDirectory(listing[..i]) == Staging(staging, None)
        invariant enriched == old(enriched) && dimension == old(dimension)
      {
        var entry := listing[i];
        assert listing[..i + 1][..i] == listing[..i];
        if IsMetadataFile(entry.name) {
          var read := ReadMetadataFile(entry);
          if read.Err? {
            error := Some(read.error);
            ErrorIsFinal(listing, i + 1);
            return;
          }
          InsertRows(read.value);
        }
        i := i + 1;
      }
      assert listing[..i] == listing;
      error := None;
    }

    /** The INSERT loop over one file's rows: each is appended to the staging table. */
    method InsertRows(rows: seq<CsvRow>)
      modifies this
      ensures staging == old(staging) + StageRows(rows)
      ensures enriched == old(enriched) && dimension == old(dimension)
    {
      var j := 0;
      while j < |rows|
        invariant 0 <= j <= |rows|
        invariant staging == old(staging) + StageRows(rows[..j])
        invariant enriched == old(enriched) && dimension == old(dimension)
      {
        assert rows[..j + 1][..j] == rows[..j];
        staging := staging + [StageRow(rows[j])];
        j := j + 1;
      }
      assert rows[..j] == rows;
    }

    /**
     * `create_global_data_units`: rebuilds the enriched table as the LEFT
     * JOIN of the fact rows with the staging table. `factTable` is `None`
     * when `global_data` does not exist; the statement then fails and its
     * transaction, DROP included, is not committed.
     */
    method CreateGlobalDataUnits(factTable: Option<seq<FactRow>>) returns (ok: bool)
      requires Valid()
      modifies this
      ensures ok == factTable.Some?
      ensures staging == old(staging) && dimension == old(dimension) && Valid()
      ensures enriched == if ok then LeftJoin(factTable.value, staging) else old(enriched)
    {
      ok := factTable.Some?;
      if ok {
        enriched := LeftJoin(factTable.value, staging);
      }
    }

    /**
     * `create_deduplicated_variable_metadata`: rebuilds the dimension table as
     * the distinct projections of the staging rows onto `nondup_cols`.
     */
    method CreateDeduplicatedMetadata()
      requires Valid()
      modifies this
      ensures staging == old(staging) && enriched == old(enriched) && Valid()
      ensures dimension == DeduplicatedMetadata(staging)
    {
      dimension := DeduplicatedMetadata(staging);
    }

    /**
     * `main`: load, then join, then deduplicate. A load error ends the run
     * before the derived tables are touched; a failed join ends it before the
     * dimension table is rebuilt.
     */
    method RunPipeline(directory: Option<seq<DirEntry>>, factTable: Option<seq<FactRow>>)
      returns (error: Option<LoadError>, joined: bool)
      modifies this
      ensures staging == LoadDirectory(directory).rows
      ensures error == LoadDirectory(directory).error
      ensures joined == (error.None? && factTable.Some?)
      ensures Valid()
      ensures !joined ==> enriched == old(enriched) && dimension == old(dimension)
      ensures joined ==> enriched == LeftJoin(factTable.value, staging)
                         && dimension == DeduplicatedMetadata(staging)
    {
      error := LoadAllMetadata(directory);
      if error.Some? {
        return error, false;
      }
      joined := CreateGlobalDataUnits(factTable);
      if !joined {
        return;
      }
      CreateDeduplicatedMetadata();
    }
  }
}
