/**
 * Names derived from a country code by the fact-table loader: the
 * partition-key normalisation, the partition and index names, and the path of
 * the file the partition is bulk-loaded from.
 */
module PartitionNaming {

  /** The partitioned parent fact table. */
  const FactTable := "global_data"
  const PartitionPrefix := FactTable + "_"
  const IndexSuffix := "_year_idx"
  const SourcePrefix := "/data/WID_data_"
  const SourceSuffix := ".csv"

  predicate IsUpperAscii(c: char)
  {
    'A' <= c <= 'Z'
  }

  /** A character that may appear in a normalised key: no dash, no upper-case ASCII letter. */
  predicate IsKeyChar(c: char)
  {
    c != '-' && !IsUpperAscii(c)
  }

  predicate IsNormalized(key: string)
  {
    forall i :: 0 <= i < |key| ==> IsKeyChar(key[i])
  }

  /** `lower()` (over ASCII) followed by `replace('-', '_')`, on one character. */
  function NormalizeChar(c: char): char
  {
    if IsUpperAscii(c) then (c as int - 'A' as int + 'a' as int) as char
    else if c == '-' then '_'
    else c
  }

  /** The partition key of a country code: lower-cased, with every `-` turned into `_`. */
  function Normalize(code: string): (key: string)
    ensures |key| == |code|
    ensures IsNormalized(key)
  {
    if code == [] then [] else [NormalizeChar(code[0])] + Normalize(code[1..])
  }

  /** A key is left unchanged by normalisation exactly when it is already normalised. */
  lemma {:induction false} NormalizeFixesExactlyNormalized(key: string)
    ensures Normalize(key) == key <==> IsNormalized(key)
  {
    if key != [] && IsNormalized(key) {
      assert IsNormalized(key[1..]) by {
        forall i | 0 <= i < |key[1..]| ensures IsKeyChar(key[1..][i]) {
          assert key[1..][i] == key[i + 1];
        }
      }
      NormalizeFixesExactlyNormalized(key[1..]);
      assert key == [key[0]] + key[1..];
    }
  }

  /** Normalising twice is normalising once. */
  lemma NormalizeIdempotent(code: string)
    ensures Normalize(Normalize(code)) == Normalize(code)
  {
    NormalizeFixesExactlyNormalized(Normalize(code));
  }

  /** The region code of the source comment and a plain country code. */
  lemma NormalizeExamples()
    ensures Normalize("US-WA") == "us_wa"
    ensures Normalize("FR") == "fr"
  {
    assert Normalize("A") == "a";
    assert Normalize("WA") == "wa";
    assert Normalize("-WA") == "_wa";
    assert Normalize("S-WA") == "s_wa";
    assert Normalize("R") == "r";
  }

  /** Two distinct source codes can share a partition key. */
  lemma NormalizeNotInjective()
    ensures "US-WA" != "us_wa" && Normalize("US-WA") == Normalize("us_wa")
  {
    NormalizeExamples();
    assert IsNormalized("us_wa");
    NormalizeFixesExactlyNormalized("us_wa");
  }

  /** `global_data_{code}` with the normalised code. */
  function PartitionName(code: string): string
  {
    PartitionPrefix + Normalize(code)
  }

  /** `global_data_{code}_year_idx` with the normalised code. */
  function IndexName(code: string): string
  {
    PartitionName(code) + IndexSuffix
  }

  /** `/data/WID_data_{file_code}.csv` with the ORIGINAL code. */
  function CopySource(code: string): string
  {
    SourcePrefix + code + SourceSuffix
  }

  /** Two codes get the same partition name exactly when they normalise alike, and then the same index name. */
  lemma DerivedNamesCollideTogether(a: string, b: string)
    ensures PartitionName(a) == PartitionName(b) <==> Normalize(a) == Normalize(b)
    ensures IndexName(a) == IndexName(b) <==> Normalize(a) == Normalize(b)
  {
    var n := |PartitionPrefix|;
    if PartitionName(a) == PartitionName(b) {
      assert Normalize(a) == PartitionName(a)[n..];
    }
    if IndexName(a) == IndexName(b) {
      assert |Normalize(a)| == |Normalize(b)|;
      assert Normalize(a) == IndexName(a)[n..n + |Normalize(a)|];
    }
  }

  /** Distinct codes are always loaded from distinct files. */
  lemma CopySourceInjective(a: string, b: string)
    ensures CopySource(a) == CopySource(b) <==> a == b
  {
    var n := |SourcePrefix|;
    if CopySource(a) == CopySource(b) {
      assert |a| == |b|;
      assert a == CopySource(a)[n..n + |a|];
    }
  }

  /** No derived name is the parent table's, and no code's index shares its own partition's name. */
  lemma DerivedNamesAvoidParent(code: string)
    ensures PartitionName(code) != FactTable
    ensures IndexName(code) != FactTable
    ensures IndexName(code) != PartitionName(code)
  {
    assert |PartitionName(code)| == |FactTable| + 1 + |code|;
  }
}
