/**
 * The fact-table loader: reset of the partitioned parent table, the list of
 * country codes, and the per-code create -> index/cluster -> copy sequence with
 * its failure isolation.
 *
 * The store is the part of the database catalog the loader touches: one
 * namespace of relation names (tables and indexes share it) holding the parent
 * table, its list partitions and their year indexes, plus the log of COPY
 * statements that succeeded. External causes of failure (a missing or
 * malformed source file, a refused CLUSTER, ...) are an input: the set of
 * (code, step) pairs whose statement the environment makes fail.
 */
module Provisioning {
  import opened Wrappers
  import opened Sequences
  import opened PartitionNaming

  datatype Relation =
    | ParentTable               // the table partitioned by list on `country`
    | Partition(boundTo: string) // FOR VALUES IN (boundTo)
    | YearIndex(onTable: string) // index on `year`; CLUSTER ran on the partition before its load

  datatype Store = Store(relations: map<string, Relation>, loads: seq<(string, string)>)

  datatype Step = CreateStep | IndexStep | CopyStep

  datatype Outcome = Done | FailedAt(step: Step)

  /** The error line reported for a code. */
  datatype Failure = Failure(code: string, step: Step)

  /** The fold of the provisioning loop: the store reached and each code's outcome. */
  datatype Trace = Trace(store: Store, outcomes: seq<Outcome>)

  /** The codes of the reference column: nulls dropped, each code once, in order of first appearance. */
  function CodeList(column: seq<Option<string>>): (codes: seq<string>)
    ensures Distinct(codes)
    ensures forall c :: c in codes <==> Some(c) in column
  {
    Unique(DropNulls(column))
  }

  /** The code list keeps the order in which the codes first appear in the column. */
  lemma CodeListKeepsColumnOrder(column: seq<Option<string>>)
    ensures forall i, j :: 0 <= i < j < |CodeList(column)| ==>
              FirstIndex(column, Some(CodeList(column)[i])) < FirstIndex(column, Some(CodeList(column)[j]))
  {
    var present := DropNulls(column);
    var codes := CodeList(column);
    UniqueKeepsFirstOccurrenceOrder(present);
    forall i, j | 0 <= i < j < |codes|
      ensures FirstIndex(column, Some(codes[i])) < FirstIndex(column, Some(codes[j]))
    {
      DropNullsKeepsOrder(column, codes[i], codes[j]);
    }
  }

  function Partitions(s: Store): set<string>
  {
    set n | n in s.relations && s.relations[n].Partition?
  }

  function BoundCodes(s: Store): set<string>
  {
    set n | n in s.relations && s.relations[n].Partition? :: s.relations[n].boundTo
  }

  predicate HasFactTable(s: Store)
  {
    FactTable in s.relations && s.relations[FactTable] == ParentTable
  }

  /** The store after `DROP TABLE IF EXISTS global_data CASCADE; CREATE TABLE global_data ... PARTITION BY LIST (country)`. */
  function ResetStore(): (s: Store)
    ensures HasFactTable(s)
    ensures Partitions(s) == {} && BoundCodes(s) == {}
    ensures s.loads == []
  {
    Store(map[FactTable := ParentTable], [])
  }

  /** `CREATE TABLE global_data_{key} PARTITION OF global_data FOR VALUES IN ('{code}')`. */
  function CreateTable(s: Store, code: string, fault: bool): Option<Store>
  {
    var table := PartitionName(code);
    if fault || !HasFactTable(s) || table in s.relations || code in BoundCodes(s) then None
    else Some(s.(relations := s.relations[table := Partition(code)]))
  }

  /** `CREATE INDEX global_data_{key}_year_idx ...; CLUSTER ...`, one statement batch, all or nothing. */
  function CreateIndex(s: Store, code: string, fault: bool): Option<Store>
  {
    var table := PartitionName(code);
    var index := IndexName(code);
    if fault || table !in s.relations || !s.relations[table].Partition? || index in s.relations then None
    else Some(s.(relations := s.relations[index := YearIndex(table)]))
  }

  /** `COPY global_data_{key} FROM '/data/WID_data_{code}.csv' ...`. */
  function CopyRows(s: Store, code: string, fault: bool): Option<Store>
  {
    var table := PartitionName(code);
    if fault || table !in s.relations || !s.relations[table].Partition? then None
    else Some(s.(loads := s.loads + [(table, CopySource(code))]))
  }

  /** Relations of `s` are all still in `t`, unchanged, and the loads of `s` begin those of `t`. */
  predicate Extends(s: Store, t: Store)
  {
    && (forall n :: n in s.relations ==> n in t.relations && t.relations[n] == s.relations[n])
    && s.loads <= t.loads
  }

  /**
   * One pass of the loop body: the three statements in order, stopping at the
   * first that fails. With autocommit on, what succeeded stays.
   */
  function Attempt(s: Store, code: string, faults: set<(string, Step)>): (Store, Outcome)
  {
    match CreateTable(s, code, (code, CreateStep) in faults)
    case None => (s, FailedAt(CreateStep))
    case Some(s1) =>
      match CreateIndex(s1, code, (code, IndexStep) in faults)
      case None => (s1, FailedAt(IndexStep))
      case Some(s2) =>
        match CopyRows(s2, code, (code, CopyStep) in faults)
        case None => (s2, FailedAt(CopyStep))
        case Some(s3) => (s3, Done)
  }

  /**
   * What one attempt leaves behind: nothing that existed is altered; creation
   * fails exactly when the CREATE statement is refused, and then nothing
   * changes; otherwise the partition is bound to the original code; a failed
   * CREATE INDEX + CLUSTER batch leaves only the new partition, and no index;
   * the index exists once the second step succeeded; the load is recorded only
   * when all three succeeded.
   */
  lemma AttemptEffects(s: Store, code: string, faults: set<(string, Step)>)
    ensures var r := Attempt(s, code, faults);
            && Extends(s, r.0)
            && (r.1 == FailedAt(CreateStep) <==> CreateTable(s, code, (code, CreateStep) in faults).None?)
            && (r.1 == FailedAt(CreateStep) ==> r.0 == s)
            && (r.1 != FailedAt(CreateStep) ==>
                  PartitionName(code) !in s.relations && PartitionName(code) in r.0.relations &&
                  r.0.relations[PartitionName(code)] == Partition(code))
            && (r.1 == FailedAt(IndexStep) ==>
                  r.0 == s.(relations := s.relations[PartitionName(code) := Partition(code)]))
            && (r.1 == FailedAt(IndexStep) && IndexName(code) !in s.relations ==> IndexName(code) !in r.0.relations)
            && (r.1 == Done || r.1 == FailedAt(CopyStep) ==>
                  IndexName(code) in r.0.relations && r.0.relations[IndexName(code)] == YearIndex(PartitionName(code)))
            && r.0.loads == (if r.1 == Done then s.loads + [(PartitionName(code), CopySource(code))] else s.loads)
  {
    DerivedNamesAvoidParent(code);
  }

  /** The provisioning loop over `codes`, from store `s`. */
  function ProvisionAll(s: Store, codes: seq<string>, faults: set<(string, Step)>): (t: Trace)
    ensures |t.outcomes| == |codes|
    decreases |codes|
  {
    if codes == [] then Trace(s, [])
    else
      var before := ProvisionAll(s, codes[..|codes| - 1], faults);
      var after := Attempt(before.store, codes[|codes| - 1], faults);
      Trace(after.0, before.outcomes + [after.1])
  }

  /** The error lines printed by the loop, in order. */
  function Failures(codes: seq<string>, outcomes: seq<Outcome>): (report: seq<Failure>)
    requires |codes| == |outcomes|
    ensures |report| <= |codes|
    ensures forall f :: f in report ==> f.code in codes
  {
    if codes == [] then []
    else
      var n := |codes| - 1;
      var earlier := Failures(codes[..n], outcomes[..n]);
      assert codes == codes[..n] + [codes[n]];
      earlier + (if outcomes[n].FailedAt? then [Failure(codes[n], outcomes[n].step)] else [])
  }

  /** How many error lines name `code`. */
  function ReportCount(report: seq<Failure>, code: string): nat
  {
    if report == [] then 0
    else ReportCount(report[..|report| - 1], code) + (if report[|report| - 1].code == code then 1 else 0)
  }

  lemma {:induction false} ReportCountAbsent(report: seq<Failure>, code: string)
    requires forall f :: f in report ==> f.code != code
    ensures ReportCount(report, code) == 0
  {
    if report != [] {
      assert forall f :: f in report[..|report| - 1] ==> f in report;
      ReportCountAbsent(report[..|report| - 1], code);
    }
  }

  lemma ReportCountAppend(report: seq<Failure>, extra: seq<Failure>, code: string)
    requires |extra| <= 1
    ensures ReportCount(report + extra, code)
            == ReportCount(report, code) + (if extra != [] && extra[0].code == code then 1 else 0)
  {
    if extra != [] {
      assert (report + extra)[..|report|] == report;
    } else {
      assert report + extra == report;
    }
  }

  /**
   * Every code of the list is attempted, from the store the earlier codes left,
   * whatever their outcomes were.
   */
  lemma {:induction false} EveryCodeAttempted(s: Store, codes: seq<string>, faults: set<(string, Step)>, i: nat)
    requires i < |codes|
    ensures ProvisionAll(s, codes, faults).outcomes[i]
            == Attempt(ProvisionAll(s, codes[..i], faults).store, codes[i], faults).1
    ensures ProvisionAll(s, codes[..i + 1], faults).store
            == Attempt(ProvisionAll(s, codes[..i], faults).store, codes[i], faults).0
  {
    var n := |codes| - 1;
    assert codes[..i + 1][..i] == codes[..i];
    if i < n {
      assert codes[..n][..i] == codes[..i] && codes[..n][..i + 1] == codes[..i + 1];
      EveryCodeAttempted(s, codes[..n], faults, i);
    } else {
      assert codes[..i + 1] == codes;
    }
  }

  /** A code of a duplicate-free list is reported exactly when it failed, and then once. */
  lemma {:induction false} FailureReportedOnce(codes: seq<string>, outcomes: seq<Outcome>, i: nat)
    requires |codes| == |outcomes| && Distinct(codes) && i < |codes|
    ensures ReportCount(Failures(codes, outcomes), codes[i]) == if outcomes[i] == Done then 0 else 1
    ensures forall f :: f in Failures(codes, outcomes) && f.code == codes[i] ==> outcomes[i] == FailedAt(f.step)
  {
    var n := |codes| - 1;
    var earlier := Failures(codes[..n], outcomes[..n]);
    var extra := if outcomes[n].FailedAt? then [Failure(codes[n], outcomes[n].step)] else [];
    assert Failures(codes, outcomes) == earlier + extra;
    ReportCountAppend(earlier, extra, codes[i]);
    if i == n {
      assert forall f :: f in earlier ==> f.code in codes[..n];
      assert codes[n] !in codes[..n];
      ReportCountAbsent(earlier, codes[i]);
    } else {
      assert Distinct(codes[..n]);
      FailureReportedOnce(codes[..n], outcomes[..n], i);
      assert codes[n] != codes[i];
    }
  }

  /** Whatever one attempt, or the whole loop, does, it never alters or drops what earlier steps created. */
  lemma {:induction false} PrefixStoreKept(s: Store, codes: seq<string>, faults: set<(string, Step)>, k: nat)
    requires k <= |codes|
    ensures Extends(ProvisionAll(s, codes[..k], faults).store, ProvisionAll(s, codes, faults).store)
  {
    if k == |codes| {
      assert codes[..k] == codes;
    } else {
      var n := |codes| - 1;
      assert codes[..n][..k] == codes[..k];
      PrefixStoreKept(s, codes[..n], faults, k);
      AttemptEffects(ProvisionAll(s, codes[..n], faults).store, codes[n], faults);
    }
  }

  /**
   * When a later code normalises to the partition name of an earlier code whose
   * partition was created, creating the later one fails, and the name stays
   * bound to the earlier code to the end of the loop.
   */
  lemma LaterCollidingCodeRejected(s: Store, codes: seq<string>, faults: set<(string, Step)>, i: nat, j: nat)
    requires i < j < |codes|
    requires Normalize(codes[i]) == Normalize(codes[j])
    requires ProvisionAll(s, codes, faults).outcomes[i] != FailedAt(CreateStep)
    ensures ProvisionAll(s, codes, faults).outcomes[j] == FailedAt(CreateStep)
    ensures PartitionName(codes[i]) in ProvisionAll(s, codes, faults).store.relations
    ensures ProvisionAll(s, codes, faults).store.relations[PartitionName(codes[i])] == Partition(codes[i])
  {
    var name := PartitionName(codes[i]);
    DerivedNamesCollideTogether(codes[i], codes[j]);
    EveryCodeAttempted(s, codes, faults, i);
    AttemptEffects(ProvisionAll(s, codes[..i], faults).store, codes[i], faults);
    var created := ProvisionAll(s, codes[..i + 1], faults).store;
    assert created.relations[name] == Partition(codes[i]);
    assert codes[..j][..i + 1] == codes[..i + 1];
    PrefixStoreKept(s, codes[..j], faults, i + 1);
    EveryCodeAttempted(s, codes, faults, j);
    AttemptEffects(ProvisionAll(s, codes[..j], faults).store, codes[j], faults);
    assert name in ProvisionAll(s, codes[..j], faults).store.relations;
    PrefixStoreKept(s, codes, faults, i + 1);
  }

  /** A code that completed has its partition bound to it, its index, and its load, at the end of the loop. */
  lemma CompletedCodeProvisioned(s: Store, codes: seq<string>, faults: set<(string, Step)>, i: nat)
    requires i < |codes|
    requires ProvisionAll(s, codes, faults).outcomes[i] == Done
    ensures var t := ProvisionAll(s, codes, faults).store;
            && PartitionName(codes[i]) in t.relations && t.relations[PartitionName(codes[i])] == Partition(codes[i])
            && IndexName(codes[i]) in t.relations && t.relations[IndexName(codes[i])] == YearIndex(PartitionName(codes[i]))
            && (PartitionName(codes[i]), CopySource(codes[i])) in t.loads
  {
    EveryCodeAttempted(s, codes, faults, i);
    AttemptEffects(ProvisionAll(s, codes[..i], faults).store, codes[i], faults);
    var after := ProvisionAll(s, codes[..i + 1], faults).store;
    assert after.loads[|after.loads| - 1] == (PartitionName(codes[i]), CopySource(codes[i]));
    PrefixStoreKept(s, codes, faults, i + 1);
    var t := ProvisionAll(s, codes, faults).store;
    assert t.loads[|after.loads| - 1] == after.loads[|after.loads| - 1];
  }

  /** No code's partition or index name is another code's (nor its own index's). */
  predicate NoNameClash(codes: seq<string>)
  {
    forall i, j :: 0 <= i < |codes| && 0 <= j < |codes| ==>
      PartitionName(codes[i]) != IndexName(codes[j]) &&
      (i != j ==> PartitionName(codes[i]) != PartitionName(codes[j]))
  }

  /** The outcome a code has when only its own faults can stop it. */
  function OwnOutcome(code: string, faults: set<(string, Step)>): Outcome
  {
    if (code, CreateStep) in faults then FailedAt(CreateStep)
    else if (code, IndexStep) in faults then FailedAt(IndexStep)
    else if (code, CopyStep) in faults then FailedAt(CopyStep)
    else Done
  }

  /** After a reset and the first codes, every relation is the parent or a name derived from one of those codes. */
  predicate Footprint(s: Store, done: seq<string>)
  {
    && HasFactTable(s)
    && (forall n :: n in s.relations ==>
          n == FactTable || exists c :: c in done && (n == PartitionName(c) || n == IndexName(c)))
    && BoundCodes(s) <= set c | c in done
  }

  /** One attempt adds at most the code's two derived names and binds at most the code itself. */
  lemma AttemptFootprint(s: Store, code: string, faults: set<(string, Step)>)
    requires HasFactTable(s)
    ensures var t := Attempt(s, code, faults).0;
            && HasFactTable(t)
            && t.relations.Keys <= s.relations.Keys + {PartitionName(code), IndexName(code)}
            && BoundCodes(t) <= BoundCodes(s) + {code}
  {
    AttemptEffects(s, code, faults);
    var t := Attempt(s, code, faults).0;
    forall b | b in BoundCodes(t) ensures b in BoundCodes(s) + {code} {
      var n :| n in t.relations && t.relations[n].Partition? && t.relations[n].boundTo == b;
      if n in s.relations {
        assert b in BoundCodes(s);
      }
    }
  }

  /** A code whose names are free and which is not yet bound stops only at its own faults. */
  lemma AttemptOnFreeNames(s: Store, code: string, faults: set<(string, Step)>)
    requires HasFactTable(s)
    requires PartitionName(code) !in s.relations && IndexName(code) !in s.relations
    requires code !in BoundCodes(s)
    ensures Attempt(s, code, faults).1 == OwnOutcome(code, faults)
  {
    DerivedNamesAvoidParent(code);
  }

  lemma {:induction false} FootprintOfPrefix(codes: seq<string>, faults: set<(string, Step)>, i: nat)
    requires i <= |codes|
    ensures Footprint(ProvisionAll(ResetStore(), codes[..i], faults).store, codes[..i])
  {
    if i > 0 {
      FootprintOfPrefix(codes, faults, i - 1);
      EveryCodeAttempted(ResetStore(), codes, faults, i - 1);
      var before := ProvisionAll(ResetStore(), codes[..i - 1], faults).store;
      var after := ProvisionAll(ResetStore(), codes[..i], faults).store;
      var c := codes[i - 1];
      AttemptFootprint(before, c, faults);
      assert codes[..i] == codes[..i - 1] + [c];
      assert c in codes[..i];
      forall n | n in after.relations
        ensures n == FactTable || exists d :: d in codes[..i] && (n == PartitionName(d) || n == IndexName(d))
      {
        if n in before.relations && n != FactTable {
          var d :| d in codes[..i - 1] && (n == PartitionName(d) || n == IndexName(d));
          assert d in codes[..i];
        }
      }
    }
  }

  /**
   * Failure isolation: when the derived names do not clash, after a reset each
   * code's outcome depends only on the faults injected for that code.
   */
  lemma IsolatedOutcomes(codes: seq<string>, faults: set<(string, Step)>, i: nat)
    requires NoNameClash(codes) && i < |codes|
    ensures ProvisionAll(ResetStore(), codes, faults).outcomes[i] == OwnOutcome(codes[i], faults)
  {
    var c := codes[i];
    var s := ProvisionAll(ResetStore(), codes[..i], faults).store;
    FootprintOfPrefix(codes, faults, i);
    EveryCodeAttempted(ResetStore(), codes, faults, i);
    DerivedNamesAvoidParent(c);
    assert PartitionName(c) !in s.relations by {
      if PartitionName(c) in s.relations {
        var d :| d in codes[..i] && (PartitionName(c) == PartitionName(d) || PartitionName(c) == IndexName(d));
        assert false;
      }
    }
    assert IndexName(c) !in s.relations by {
      if IndexName(c) in s.relations {
        var d :| d in codes[..i] && (IndexName(c) == PartitionName(d) || IndexName(c) == IndexName(d));
        DerivedNamesCollideTogether(c, d);
        assert false;
      }
    }
    assert c !in BoundCodes(s) by {
      if c in BoundCodes(s) {
        assert false;
      }
    }
    AttemptOnFreeNames(s, c, faults);
  }

  /**
   * One malformed source file: its code alone fails, at the COPY, and is the
   * only error reported; every other code completes.
   */
  lemma OneBadFileIsolated(codes: seq<string>, bad: nat)
    requires NoNameClash(codes) && bad < |codes|
    ensures var t := ProvisionAll(ResetStore(), codes, {(codes[bad], CopyStep)});
            && (forall i :: 0 <= i < |codes| ==> t.outcomes[i] == if i == bad then FailedAt(CopyStep) else Done)
            && Failures(codes, t.outcomes) == [Failure(codes[bad], CopyStep)]
  {
    var faults := {(codes[bad], CopyStep)};
    var outcomes := ProvisionAll(ResetStore(), codes, faults).outcomes;
    forall i | 0 <= i < |codes|
      ensures outcomes[i] == if i == bad then FailedAt(CopyStep) else Done
    {
      IsolatedOutcomes(codes, faults, i);
      OwnOutcomeOfOneFault(codes, bad, i);
    }
    SingleFailureReported(codes, outcomes, bad, CopyStep);
  }

  lemma OwnOutcomeOfOneFault(codes: seq<string>, bad: nat, i: nat)
    requires NoNameClash(codes) && bad < |codes| && i < |codes|
    ensures OwnOutcome(codes[i], {(codes[bad], CopyStep)}) == if i == bad then FailedAt(CopyStep) else Done
  {
    if i != bad {
      assert PartitionName(codes[i]) != PartitionName(codes[bad]);
    }
  }

  lemma {:induction false} SingleFailureReported(codes: seq<string>, outcomes: seq<Outcome>, m: nat, step: Step)
    requires |codes| == |outcomes| && m < |codes|
    requires forall i :: 0 <= i < |codes| ==> outcomes[i] == if i == m then FailedAt(step) else Done
    ensures Failures(codes, outcomes) == [Failure(codes[m], step)]
  {
    var n := |codes| - 1;
    if n == m {
      NoFailureReported(codes[..n], outcomes[..n]);
    } else {
      SingleFailureReported(codes[..n], outcomes[..n], m, step);
    }
  }

  lemma {:induction false} NoFailureReported(codes: seq<string>, outcomes: seq<Outcome>)
    requires |codes| == |outcomes|
    requires forall i :: 0 <= i < |codes| ==> outcomes[i] == Done
    ensures Failures(codes, outcomes) == []
  {
    if codes != [] {
      NoFailureReported(codes[..|codes| - 1], outcomes[..|codes| - 1]);
    }
  }

  /**
   * The catalog as the loader's cursor sees it. Each method is one
   * `cur.execute` (autocommit), with `fault` standing for the environment's
   * verdict on that statement.
   */
  class FactDatabase {
    var relations: map<string, Relation>
    var loads: seq<(string, string)>

    function State(): Store
      reads this
    {
      Store(relations, loads)
    }

    constructor ()
      ensures State() == Store(map[], [])
    {
      relations := map[];
      loads := [];
    }

    /** CREATE_MAIN_TABLE_SQL: drop (cascading to partitions and indexes) and recreate, or change nothing. */
    method ResetFactTable(fault: bool) returns (ok: bool)
      modifies this
      ensures ok == !fault
      ensures State() == if ok then ResetStore() else old(State())
    {
      ok := !fault;
      if ok {
        relations := map[FactTable := ParentTable];
        loads := [];
      }
    }

    method CreatePartition(code: string, fault: bool) returns (ok: bool)
      modifies this
      ensures ok == CreateTable(old(State()), code, fault).Some?
      ensures State() == if ok then CreateTable(old(State()), code, fault).value else old(State())
    {
      var table := PartitionName(code);
      ok := !fault && FactTable in relations && relations[FactTable] == ParentTable
            && table !in relations && code !in BoundCodes(State());
      if ok {
        relations := relations[table := Partition(code)];
      }
    }

    method IndexAndCluster(code: string, fault: bool) returns (ok: bool)
      modifies this
      ensures ok == CreateIndex(old(State()), code, fault).Some?
      ensures State() == if ok then CreateIndex(old(State()), code, fault).value else old(State())
    {
      var table := PartitionName(code);
      var index := IndexName(code);
      ok := !fault && table in relations && relations[table].Partition? && index !in relations;
      if ok {
        relations := relations[index := YearIndex(table)];
      }
    }

    method Copy(code: string, fault: bool) returns (ok: bool)
      modifies this
      ensures ok == CopyRows(old(State()), code, fault).Some?
      ensures State() == if ok then CopyRows(old(State()), code, fault).value else old(State())
    {
      var table := PartitionName(code);
      ok := !fault && table in relations && relations[table].Partition?;
      if ok {
        loads := loads + [(table, CopySource(code))];
      }
    }

    /** The body of the loop: the try block, and the except clause reporting where it stopped. */
    method ProvisionCode(code: string, faults: set<(string, Step)>) returns (outcome: Outcome)
      modifies this
      ensures (State(), outcome) == Attempt(old(State()), code, faults)
    {
      var ok := CreatePartition(code, (code, CreateStep) in faults);
      if !ok {
        return FailedAt(CreateStep);
      }
      ok := IndexAndCluster(code, (code, IndexStep) in faults);
      if !ok {
        return FailedAt(IndexStep);
      }
      ok := Copy(code, (code, CopyStep) in faults);
      if !ok {
        return FailedAt(CopyStep);
      }
      return Done;
    }

    /** The `for code in alpha2_codes` loop; `report` collects the error lines. */
    method ProvisionCodes(codes: seq<string>, faults: set<(string, Step)>) returns (report: seq<Failure>)
      modifies this
      ensures State() == ProvisionAll(old(State()), codes, faults).store
      ensures report == Failures(codes, ProvisionAll(old(State()), codes, faults).outcomes)
    {
      ghost var start := State();
      report := [];
      var i := 0;
      while i < |codes|
        invariant 0 <= i <= |codes|
        invariant State() == ProvisionAll(start, codes[..i], faults).store
        invariant report == Failures(codes[..i], ProvisionAll(start, codes[..i], faults).outcomes)
      {
        ghost var before := ProvisionAll(start, codes[..i], faults);
        var outcome := ProvisionCode(codes[i], faults);
        if outcome.FailedAt? {
          report := report + [Failure(codes[i], outcome.step)];
        }
        assert codes[..i + 1][..i] == codes[..i];
        assert (before.outcomes + [outcome])[..i] == before.outcomes;
        i := i + 1;
      }
      assert codes[..|codes|] == codes;
    }

    /**
     * `main`: reset the parent table (a failure here aborts the run), read the
     * reference column (`None` when the file or its `alpha2` column cannot be
     * read, which aborts the run after the reset), then provision every code.
     */
    method LoadFactData(column: Option<seq<Option<string>>>, schemaFault: bool, faults: set<(string, Step)>)
      returns (completed: bool, report: seq<Failure>)
      modifies this
      ensures completed == (!schemaFault && column.Some?)
      ensures schemaFault ==> State() == old(State()) && report == []
      ensures !schemaFault && column.None? ==> State() == ResetStore() && report == []
      ensures completed ==> State() == ProvisionAll(ResetStore(), CodeList(column.value), faults).store
      ensures completed ==> report == Failures(CodeList(column.value), ProvisionAll(ResetStore(), CodeList(column.value), faults).outcomes)
    {
      report := [];
      var reset := ResetFactTable(schemaFault);
      if !reset || column.None? {
        return false, [];
      }
      completed := true;
      var codes := CodeList(column.value);
      report := ProvisionCodes(codes, faults);
    }
  }
}
