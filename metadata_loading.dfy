/**
 * The metadata loader's pure part: which directory entries are metadata
 * files, how a parsed CSV row becomes a row of the staging table
 * `variable_metadata_raw`, and the staging table that processing a directory
 * listing produces.
 *
 * A parsed CSV row maps a column name to its cell; `None` is a cell pandas
 * reads as missing (NaN). A staging-table value is SQL TEXT, which may be
 * NULL: `None` again.
 */
module MetadataLoading {
  import opened Wrappers
  import opened Sequences

  type SqlText = Option<string>

  /** A row of the staging table: field k is the value of column MetadataColumns[k]. */
  type MetadataRow = seq<SqlText>

  type CsvRow = map<string, Option<string>>

  /** A file as the CSV reader yields it: the columns of its header and its rows. */
  datatype CsvFile = CsvFile(header: set<string>, rows: seq<CsvRow>)

  /** A directory entry; `parsed` is None when the reader cannot parse the file. */
  datatype DirEntry = DirEntry(name: string, parsed: Option<CsvFile>)

  datatype LoadError = UnlistableDirectory | Unreadable(file: string) | MissingColumns(file: string)

  /** The staging table after processing a listing, and the error that stopped it, if any. */
  datatype Staging = Staging(rows: seq<MetadataRow>, error: Option<LoadError>)

  /** The columns of the metadata files and of the staging table. */
  datatype MetadataColumn =
    | Country | Variable | Age | Pop | CountryName | ShortName
    | SimpleDes | TechnicalDes | ShortType | LongType | ShortPop
    | LongPop | ShortAge | LongAge | Unit | Source | Method

  /** `METADATA_COLUMNS`, in its order. */
  const MetadataColumns: seq<MetadataColumn> := [
    Country, Variable, Age, Pop, CountryName, ShortName,
    SimpleDes, TechnicalDes, ShortType, LongType, ShortPop,
    LongPop, ShortAge, LongAge, Unit, Source, Method
  ]

  /** The column's name in the CSV header and in SQL. */
  function ColumnName(c: MetadataColumn): string
  {
    match c
    case Country => "country"
    case Variable => "variable"
    case Age => "age"
    case Pop => "pop"
    case CountryName => "countryname"
    case ShortName => "shortname"
    case SimpleDes => "simpledes"
    case TechnicalDes => "technicaldes"
    case ShortType => "shorttype"
    case LongType => "longtype"
    case ShortPop => "shortpop"
    case LongPop => "longpop"
    case ShortAge => "shortage"
    case LongAge => "longage"
    case Unit => "unit"
    case Source => "source"
    case Method => "method"
  }

  /** Where a column sits in a staging row. */
  function Position(c: MetadataColumn): (k: nat)
    ensures k < |MetadataColumns| && MetadataColumns[k] == c
  {
    match c
    case Country => 0
    case Variable => 1
    case Age => 2
    case Pop => 3
    case CountryName => 4
    case ShortName => 5
    case SimpleDes => 6
    case TechnicalDes => 7
    case ShortType => 8
    case LongType => 9
    case ShortPop => 10
    case LongPop => 11
    case ShortAge => 12
    case LongAge => 13
    case Unit => 14
    case Source => 15
    case Method => 16
  }

  /** Every column occurs once in `METADATA_COLUMNS`, at its position, under a name of its own. */
  lemma ColumnsAreDistinct()
    ensures |MetadataColumns| == 17
    ensures forall k :: 0 <= k < |MetadataColumns| ==> Position(MetadataColumns[k]) == k
    ensures forall a: MetadataColumn, b: MetadataColumn :: ColumnName(a) == ColumnName(b) ==> a == b
  {
  }

  const FilePrefix := "WID_metadata_"
  const FileSuffix := ".csv"

  predicate StartsWith(s: string, prefix: string)
  {
    |prefix| <= |s| && s[..|prefix|] == prefix
  }

  predicate EndsWith(s: string, suffix: string)
  {
    |suffix| <= |s| && s[|s| - |suffix|..] == suffix
  }

  predicate IsMetadataFile(name: string)
  {
    StartsWith(name, FilePrefix) && EndsWith(name, FileSuffix)
  }

  /** The accepted names are exactly `WID_metadata_<anything>.csv`: prefix and suffix never overlap. */
  lemma MetadataFileNamePattern(name: string)
    ensures IsMetadataFile(name) <==> exists middle :: name == FilePrefix + middle + FileSuffix
  {
    if IsMetadataFile(name) {
      var n := |name|;
      ShortNamesRejected(name);
      var middle := name[|FilePrefix|..n - |FileSuffix|];
      assert name == name[..|FilePrefix|] + middle + name[n - |FileSuffix|..];
    }
    if exists middle :: name == FilePrefix + middle + FileSuffix {
      var middle :| name == FilePrefix + middle + FileSuffix;
      assert name[..|FilePrefix|] == FilePrefix;
      assert name[|name| - |FileSuffix|..] == FileSuffix;
    }
  }

  /** A name too short to hold both the prefix and the suffix is never accepted. */
  lemma ShortNamesRejected(name: string)
    ensures IsMetadataFile(name) ==> |name| >= |FilePrefix| + |FileSuffix|
  {
    var n := |name|;
    if StartsWith(name, FilePrefix) && |FileSuffix| <= n < |FilePrefix| + |FileSuffix| {
      assert name[n - |FileSuffix|] == FilePrefix[n - |FileSuffix|];
      assert FilePrefix[n - |FileSuffix|] != '.';
      assert name[n - |FileSuffix|..][0] != FileSuffix[0];
    }
  }

  predicate NoNulls(row: MetadataRow)
  {
    forall k :: 0 <= k < |row| ==> row[k].Some?
  }

  /** The value pandas' `fillna('')` leaves for a column of a row. */
  function Filled(row: CsvRow, column: MetadataColumn): string
  {
    var name := ColumnName(column);
    if name in row && row[name].Some? then row[name].value else ""
  }

  /** `tuple(row[col] for col in columns)` after `fillna('')`. */
  function StageFields(row: CsvRow, columns: seq<MetadataColumn>): (fields: seq<SqlText>)
    ensures |fields| == |columns|
    ensures NoNulls(fields)
    ensures forall k :: 0 <= k < |columns| && ColumnName(columns[k]) in row && row[ColumnName(columns[k])].Some? ==>
              fields[k] == row[ColumnName(columns[k])]
    ensures forall k :: 0 <= k < |columns| && (ColumnName(columns[k]) !in row || row[ColumnName(columns[k])].None?) ==>
              fields[k] == Some("")
  {
    if columns == [] then [] else [Some(Filled(row, columns[0]))] + StageFields(row, columns[1..])
  }

  /** The staging row inserted for a CSV row: the 17 metadata columns, in order, none NULL. */
  function StageRow(row: CsvRow): (staged: MetadataRow)
    ensures |staged| == |MetadataColumns| && NoNulls(staged)
  {
    StageFields(row, MetadataColumns)
  }

  function StageRows(rows: seq<CsvRow>): (staged: seq<MetadataRow>)
    ensures |staged| == |rows|
    ensures forall k :: 0 <= k < |rows| ==> staged[k] == StageRow(rows[k])
  {
    if rows == [] then []
    else StageRows(rows[..|rows| - 1]) + [StageRow(rows[|rows| - 1])]
  }

  predicate HasMetadataColumns(header: set<string>)
  {
    forall c: MetadataColumn :: ColumnName(c) in header
  }

  /** `pd.read_csv(filepath, sep=';', usecols=METADATA_COLUMNS, dtype=str)`: fails on an unparseable file or a missing column. */
  function ReadMetadataFile(entry: DirEntry): Result<seq<CsvRow>, LoadError>
  {
    if entry.parsed.None? then Err(Unreadable(entry.name))
    else if !HasMetadataColumns(entry.parsed.value.header) then Err(MissingColumns(entry.name))
    else Ok(entry.parsed.value.rows)
  }

  /**
   * The staging table after the drop/recreate and the loop over the listing,
   * in listing order: rows of accepted files are appended; a file that cannot
   * be read stops the loop, keeping the rows of the files committed before it.
   */
  function StageDirectory(listing: seq<DirEntry>): Staging
  {
    if listing == [] then Staging([], None)
    else
      var before := StageDirectory(listing[..|listing| - 1]);
      var entry := listing[|listing| - 1];
      if before.error.Some? || !IsMetadataFile(entry.name) then before
      else match ReadMetadataFile(entry)
        case Err(e) => Staging(before.rows, Some(e))
        case Ok(rows) => Staging(before.rows + StageRows(rows), None)
  }

  /**
   * The staging table after a whole load: `None` stands for a directory that
   * cannot be listed, which stops the run once the table has been recreated.
   */
  function LoadDirectory(directory: Option<seq<DirEntry>>): Staging
  {
    match directory
    case None => Staging([], Some(UnlistableDirectory))
    case Some(listing) => StageDirectory(listing)
  }

  /** Every accepted file of the listing can be read. */
  predicate AllReadable(listing: seq<DirEntry>)
  {
    forall k :: 0 <= k < |listing| && IsMetadataFile(listing[k].name) ==> ReadMetadataFile(listing[k]).Ok?
  }

  /** The staged rows a single entry contributes when it is read. */
  function Contribution(entry: DirEntry): seq<MetadataRow>
  {
    if IsMetadataFile(entry.name) && ReadMetadataFile(entry).Ok? then StageRows(ReadMetadataFile(entry).value) else []
  }

  /** What each entry of the listing contributes, in listing order. */
  function Contributions(listing: seq<DirEntry>): (parts: seq<seq<MetadataRow>>)
    ensures |parts| == |listing|
  {
    seq(|listing|, k requires 0 <= k < |listing| => Contribution(listing[k]))
  }

  /** Reference definition: the accepted files' staged rows, concatenated in listing order. */
  function AcceptedRows(listing: seq<DirEntry>): seq<MetadataRow>
  {
    Concat(Contributions(listing))
  }

  /** The number of CSV rows in the accepted, readable files. */
  function AcceptedRowCount(listing: seq<DirEntry>): nat
  {
    if listing == [] then 0
    else
      var entry := listing[|listing| - 1];
      AcceptedRowCount(listing[..|listing| - 1])
      + (if IsMetadataFile(entry.name) && ReadMetadataFile(entry).Ok? then |ReadMetadataFile(entry).value| else 0)
  }

  lemma AcceptedRowsAppend(listing: seq<DirEntry>, entry: DirEntry)
    ensures AcceptedRows(listing + [entry]) == AcceptedRows(listing) + Contribution(entry)
  {
    assert Contributions(listing + [entry]) == Contributions(listing) + [Contribution(entry)];
    ConcatAppend(Contributions(listing), Contribution(entry));
  }

  /**
   * Loading succeeds exactly when every accepted file can be read, and then the
   * staging table is the concatenation of the accepted files' rows in
   * processing order; its row count is the sum of their row counts.
   */
  lemma {:induction false} StagingIsConcatenation(listing: seq<DirEntry>)
    ensures StageDirectory(listing).error.None? <==> AllReadable(listing)
    ensures AllReadable(listing) ==> StageDirectory(listing).rows == AcceptedRows(listing)
    ensures AllReadable(listing) ==> |StageDirectory(listing).rows| == AcceptedRowCount(listing)
  {
    if listing == [] {
      assert Contributions(listing) == [];
    } else {
      var n := |listing| - 1;
      var prefix := listing[..n];
      StagingIsConcatenation(prefix);
      assert listing == prefix + [listing[n]];
      AcceptedRowsAppend(prefix, listing[n]);
      if AllReadable(listing) {
        assert AllReadable(prefix) by {
          forall k | 0 <= k < n && IsMetadataFile(prefix[k].name) ensures ReadMetadataFile(prefix[k]).Ok? {
            assert prefix[k] == listing[k];
          }
        }
      } else if AllReadable(prefix) {
        assert IsMetadataFile(listing[n].name) && ReadMetadataFile(listing[n]).Err?;
      } else {
        assert !AllReadable(prefix);
      }
    }
  }

  /** Once an error has stopped the loop, later entries change nothing. */
  lemma {:induction false} ErrorIsFinal(listing: seq<DirEntry>, k: nat)
    requires k <= |listing| && StageDirectory(listing[..k]).error.Some?
    ensures StageDirectory(listing) == StageDirectory(listing[..k])
  {
    if k < |listing| {
      var n := |listing| - 1;
      assert listing[..n][..k] == listing[..k];
      ErrorIsFinal(listing[..n], k);
    } else {
      assert listing[..k] == listing;
    }
  }

  /**
   * A failed load names the first accepted file that could not be read; the
   * staging table then holds exactly the rows of the accepted files before it.
   */
  lemma {:induction false} FailedLoadKeepsEarlierFiles(listing: seq<DirEntry>)
    requires StageDirectory(listing).error.Some?
    ensures exists k :: 0 <= k < |listing| && IsMetadataFile(listing[k].name)
              && ReadMetadataFile(listing[k]) == Err(StageDirectory(listing).error.value)
              && AllReadable(listing[..k])
              && StageDirectory(listing).rows == AcceptedRows(listing[..k])
  {
    var n := |listing| - 1;
    var prefix := listing[..n];
    if StageDirectory(prefix).error.Some? {
      FailedLoadKeepsEarlierFiles(prefix);
      var k :| 0 <= k < |prefix| && IsMetadataFile(prefix[k].name)
               && ReadMetadataFile(prefix[k]) == Err(StageDirectory(prefix).error.value)
               && AllReadable(prefix[..k])
               && StageDirectory(prefix).rows == AcceptedRows(prefix[..k]);
      assert prefix[..k] == listing[..k];
      assert prefix[k] == listing[k];
    } else {
      StagingIsConcatenation(prefix);
      assert listing[..n] == prefix;
    }
  }

  /** Every staged row has the 17 metadata columns and no NULL. */
  lemma {:induction false} StagedRowsWellFormed(listing: seq<DirEntry>)
    ensures forall r :: r in StageDirectory(listing).rows ==> |r| == |MetadataColumns| && NoNulls(r)
  {
    if listing != [] {
      var prefix := listing[..|listing| - 1];
      StagedRowsWellFormed(prefix);
      var entry := listing[|listing| - 1];
      if StageDirectory(prefix).error.None? && IsMetadataFile(entry.name) && ReadMetadataFile(entry).Ok? {
        var added := StageRows(ReadMetadataFile(entry).value);
        forall r | r in added ensures |r| == |MetadataColumns| && NoNulls(r) {
          var k :| 0 <= k < |added| && added[k] == r;
        }
      }
    }
  }
}
