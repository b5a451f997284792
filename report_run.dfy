/**
 * The control decisions of one run of auto_voucher_report_generation.py:
 * the gate in `main` (configuration present, peer probe) and the loop of
 * `card_count` over the source tables, which routes each table's report to
 * one of two file pairs and gives up on every remaining table at the first
 * database error, because the `try` encloses the whole loop.
 *
 * The database is abstracted to one outcome per table, its rows or an error,
 * and to the day `trunc(sysdate)` stands for when that table's query runs;
 * the socket probe to its integer result; the report files to their contents.
 */
module ReportRun {
  import opened Wrappers
  import opened Cipher
  import opened CardQuery

  /** What `pd.read_sql` yields for one table: its rows, or a SQLAlchemyError. */
  datatype QueryOutcome = Fetched(rows: seq<CardRow>) | DatabaseError

  /** The result set of the query over one table, as a DataFrame indexed by CARD_TYPE. */
  type Report = seq<CardTypeCounts>

  /** The two file pairs: (csvname1, name1) for UCMS_CARDS, (csvname2, name2) for every other table. */
  datatype FileSlot = UcmsPair | ImportedPair

  /**
   * One pair of report files: the CSV file is opened in append mode, so it
   * collects every report written to it; the text file is opened with 'w',
   * so it holds only the last one.
   */
  datatype FilePair = FilePair(csv: seq<Report>, txt: Option<Report>)

  datatype ReportFiles = ReportFiles(ucms: FilePair, imported: FilePair)

  /** The observable steps of a run, in the order they happen. */
  datatype Step = ProbePeer | DecryptPassword | FetchTable(table: string) | WriteReport(table: string, slot: FileSlot)

  /** The one table name written to the first file pair. */
  const UcmsTable: string := "UCMS_CARDS"

  /** The file pair a table's report goes to. */
  function Route(table: string): FileSlot {
    if table == UcmsTable then UcmsPair else ImportedPair
  }

  function PairOf(files: ReportFiles, slot: FileSlot): FilePair {
    match slot
    case UcmsPair => files.ucms
    case ImportedPair => files.imported
  }

  /** `to_csv(mode='a')` followed by rewriting the text file. */
  function Written(p: FilePair, report: Report): FilePair {
    FilePair(p.csv + [report], Some(report))
  }

  /** The position of the first table whose query fails, or the number of tables when none fails. */
  function FirstError(outcomes: seq<QueryOutcome>): (k: nat)
    ensures k <= |outcomes|
    ensures forall j :: 0 <= j < k ==> outcomes[j].Fetched?
    ensures k < |outcomes| ==> outcomes[k].DatabaseError?
  {
    if outcomes == [] || outcomes[0].DatabaseError? then 0
    else 1 + FirstError(outcomes[1..])
  }

  predicate AllFetched(outcomes: seq<QueryOutcome>) {
    forall j :: 0 <= j < |outcomes| ==> outcomes[j].Fetched?
  }

  /** The report files after the reports of `tables`, all fetched, have been written in order. */
  function Emitted(files0: ReportFiles, tables: seq<string>, outcomes: seq<QueryOutcome>, days: seq<int>): ReportFiles
    requires |outcomes| == |tables| == |days| && AllFetched(outcomes)
    decreases |tables|
  {
    if tables == [] then files0
    else
      var n := |tables| - 1;
      var files := Emitted(files0, tables[..n], outcomes[..n], days[..n]);
      var report := Query(outcomes[n].rows, days[n]);
      match Route(tables[n])
      case UcmsPair => files.(ucms := Written(files.ucms, report))
      case ImportedPair => files.(imported := Written(files.imported, report))
  }

  /** The steps of fetching and writing each of `tables` in turn. */
  function FetchedAndWritten(tables: seq<string>): seq<Step>
    decreases |tables|
  {
    if tables == [] then []
    else
      var n := |tables| - 1;
      FetchedAndWritten(tables[..n]) + [FetchTable(tables[n]), WriteReport(tables[n], Route(tables[n]))]
  }

  /** The steps of `card_count`: every table up to the first failing one is fetched and written; the failing one is only fetched. */
  function CardCountSteps(tables: seq<string>, outcomes: seq<QueryOutcome>): seq<Step>
    requires |outcomes| == |tables|
  {
    var k := FirstError(outcomes);
    FetchedAndWritten(tables[..k]) + (if k < |tables| then [FetchTable(tables[k])] else [])
  }

  /** The report files after `card_count`. */
  function CardCountFiles(files0: ReportFiles, tables: seq<string>, outcomes: seq<QueryOutcome>, days: seq<int>): ReportFiles
    requires |outcomes| == |tables| == |days|
  {
    var k := FirstError(outcomes);
    Emitted(files0, tables[..k], outcomes[..k], days[..k])
  }

  /**
   * The loop of `card_count`. `days[i]` is the value of `trunc(sysdate)` when
   * the query over `tables[i]` runs; each query reads the clock anew, so a run
   * that crosses midnight counts later tables against the next day.
   * `failedAt` is the position of the table whose query raised the error
   * that ended the loop, if any.
   */
  method CardCount(tables: seq<string>, outcomes: seq<QueryOutcome>, days: seq<int>, files0: ReportFiles)
    returns (files: ReportFiles, steps: seq<Step>, failedAt: Option<nat>)
    requires |outcomes| == |tables| == |days|
    ensures failedAt == (if FirstError(outcomes) < |tables| then Some(FirstError(outcomes)) else None)
    ensures files == CardCountFiles(files0, tables, outcomes, days)
    ensures steps == CardCountSteps(tables, outcomes)
  {
    files, steps, failedAt := files0, [], None;
    var i := 0;
    while i < |tables|
      invariant 0 <= i <= FirstError(outcomes)
      invariant files == Emitted(files0, tables[..i], outcomes[..i], days[..i])
      invariant steps == FetchedAndWritten(tables[..i])
    {
      var table := tables[i];
      steps := steps + [FetchTable(table)];
      match outcomes[i]
      case DatabaseError =>
        failedAt := Some(i);
        return;
      case Fetched(rows) =>
        var report := Query(rows, days[i]);
        if table == UcmsTable {
          files := files.(ucms := Written(files.ucms, report));
        } else {
          files := files.(imported := Written(files.imported, report));
        }
        steps := steps + [WriteReport(table, Route(table))];
        assert tables[..i + 1][..i] == tables[..i];
        assert outcomes[..i + 1][..i] == outcomes[..i];
        assert days[..i + 1][..i] == days[..i];
        i := i + 1;
    }
    assert tables[..i] == tables;
    assert outcomes[..i] == outcomes;
    assert days[..i] == days;
  }

  /** The reports that reach file pair `slot`, in the order they are written. */
  function ReportsFor(tables: seq<string>, outcomes: seq<QueryOutcome>, days: seq<int>, slot: FileSlot): seq<Report>
    requires |outcomes| == |tables| == |days| && AllFetched(outcomes)
    decreases |tables|
  {
    if tables == [] then []
    else
      var n := |tables| - 1;
      ReportsFor(tables[..n], outcomes[..n], days[..n], slot)
        + (if Route(tables[n]) == slot then [Query(outcomes[n].rows, days[n])] else [])
  }

  /**
   * Each file pair receives exactly the reports of the tables routed to it:
   * its CSV file gains all of them in order, its text file ends up holding
   * the last of them, and a pair no table is routed to is left untouched.
   */
  lemma {:induction false} EmittedPerPair(files0: ReportFiles, tables: seq<string>, outcomes: seq<QueryOutcome>,
                                          days: seq<int>, slot: FileSlot)
    requires |outcomes| == |tables| == |days| && AllFetched(outcomes)
    ensures var pair, reports := PairOf(Emitted(files0, tables, outcomes, days), slot),
                                 ReportsFor(tables, outcomes, days, slot);
            && pair.csv == PairOf(files0, slot).csv + reports
            && pair.txt == (if reports == [] then PairOf(files0, slot).txt else Some(reports[|reports| - 1]))
    decreases |tables|
  {
    if tables != [] {
      var n := |tables| - 1;
      EmittedPerPair(files0, tables[..n], outcomes[..n], days[..n], slot);
    }
  }

  /** The pair of each write step follows the table name: UCMS_CARDS goes to the first pair, every other name to the second. */
  lemma {:induction false} WritesRoutedByName(tables: seq<string>)
    ensures forall s :: s in FetchedAndWritten(tables) && s.WriteReport? ==>
              s.table in tables && (s.slot == UcmsPair <==> s.table == UcmsTable)
    decreases |tables|
  {
    if tables != [] {
      var n := |tables| - 1;
      WritesRoutedByName(tables[..n]);
      assert forall t :: t in tables[..n] ==> t in tables;
    }
  }

  /**
   * A query error on table `j` ends the loop: no table after `j` is fetched
   * or written, and when every earlier query succeeds, every earlier table
   * has been written and `j` is the table reported as failed.
   */
  lemma ErrorAbandonsLaterTables(tables: seq<string>, outcomes: seq<QueryOutcome>, j: nat)
    requires |outcomes| == |tables| && j < |tables| && outcomes[j].DatabaseError?
    ensures FirstError(outcomes) <= j
    ensures |CardCountSteps(tables, outcomes)| <= 2 * j + 1
    ensures AllFetched(outcomes[..j]) ==>
              CardCountSteps(tables, outcomes) == FetchedAndWritten(tables[..j]) + [FetchTable(tables[j])]
  {
    var k := FirstError(outcomes);
    StepCount(tables[..k]);
    if AllFetched(outcomes[..j]) {
      assert forall i :: 0 <= i < j ==> outcomes[i] == outcomes[..j][i];
    }
  }

  lemma {:induction false} StepCount(tables: seq<string>)
    ensures |FetchedAndWritten(tables)| == 2 * |tables|
    decreases |tables|
  {
    if tables != [] {
      StepCount(tables[..|tables| - 1]);
    }
  }

  /** How a run of `main` ends. */
  datatype RunOutcome =
    | ConfigMissing
    | NotStandby
    | Reported(password: seq<Byte>, files: ReportFiles, failedAt: Option<nat>)

  /**
   * `main` from reading config.ini on: `configFound` says whether the file
   * was read, `probeResult` is what `connect_ex` returned for the mated peer.
   * Without a configuration the run stops before probing; a probe result of
   * 0 means the peer accepted the connection, so this node is not the
   * standby and the run stops before decrypting the password or touching
   * the database. Otherwise the stored password is decrypted with the shared
   * passphrase and `card_count` runs.
   */
  method RunReportJob(configFound: bool, probeResult: int, storedPassword: seq<Byte>,
                      tables: seq<string>, outcomes: seq<QueryOutcome>, days: seq<int>, files0: ReportFiles)
    returns (outcome: RunOutcome, steps: seq<Step>)
    requires |outcomes| == |tables| == |days|
    ensures !configFound ==> outcome == ConfigMissing && steps == []
    ensures configFound && probeResult == 0 ==> outcome == NotStandby && steps == [ProbePeer]
    ensures configFound && probeResult != 0 ==>
              && outcome.Reported?
              && outcome.password == Decrypted(Passphrase, storedPassword)
              && outcome.files == CardCountFiles(files0, tables, outcomes, days)
              && outcome.failedAt == (if FirstError(outcomes) < |tables| then Some(FirstError(outcomes)) else None)
              && steps == [ProbePeer, DecryptPassword] + CardCountSteps(tables, outcomes)
    ensures (exists i :: 0 <= i < |steps| && steps[i].FetchTable?) ==> configFound && probeResult != 0
  {
    if !configFound {
      return ConfigMissing, [];
    }
    steps := [ProbePeer];
    if probeResult == 0 {
      return NotStandby, steps;
    }
    var password := Decrypt(Passphrase, storedPassword);
    steps := steps + [DecryptPassword];
    var files, tableSteps, failedAt := CardCount(tables, outcomes, days, files0);
    steps := steps + tableSteps;
    outcome := Reported(password, files, failedAt);
  }
}
