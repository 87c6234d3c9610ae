/**
 * The two tables the script writes, `results/<gene>.clusters_by_haplotype.csv`
 * and `results/<gene>.haplotype_counts.csv` (workflow/scripts/count.py,
 * `write_clusters`, `write_counts` and the end of `main`).
 */
module Report {
  import opened Wrappers
  import opened Text
  import opened Haplotyping
  import opened Tally

  /** `','.join(fields) + '\n'`: one line of a table; fields are written as they are, unquoted. */
  function CsvLine(fields: seq<string>): (line: string)
    ensures line != [] && line[|line| - 1] == '\n'
    ensures line[..|line| - 1] == Join(fields, ',')
  {
    Join(fields, ',') + "\n"
  }

  /** A line without its final line break. */
  function Chomp(line: string): string
    requires line != []
  {
    line[..|line| - 1]
  }

  /**
   * Reading a line back gives its fields, provided no field holds a comma
   * or a line break: the line break comes only at the end.
   */
  lemma CsvLineRoundTrip(fields: seq<string>)
    requires fields != []
    requires forall k :: 0 <= k < |fields| ==> ',' !in fields[k] && '\n' !in fields[k]
    ensures CsvLine(fields)[|CsvLine(fields)| - 1] == '\n'
    ensures '\n' !in Chomp(CsvLine(fields))
    ensures Split(Chomp(CsvLine(fields)), ',') == fields
  {
    var line := CsvLine(fields);
    assert Chomp(line) == Join(fields, ',');
    JoinAvoids(fields, ',', '\n');
    SplitJoin(fields, ',');
  }

  // -----------------------------------------------------------------------
  // write_clusters

  const ClusterHeader: seq<string> := ["sample_name", "cluster_name", "haplotype"]

  /** The strings of a row that holds no `None`. */
  function Values(row: Row): (r: seq<string>)
    requires None !in row
    ensures |r| == |row|
    ensures forall k :: 0 <= k < |row| ==> row[k] == Some(r[k])
  {
    if row == [] then []
    else
      assert row[0] in row;
      assert forall x :: x in row[1..] ==> x in row;
      [row[0].value] + Values(row[1..])
  }

  /** The line written for one row: nothing when the row holds a `None`. */
  function ClusterLine(row: Row): string
  {
    if None in row then [] else CsvLine(Values(row))
  }

  /** The text of the clusters table: the header, then one line per row, skipping rows that hold a `None`. */
  function ClustersCsv(rows: seq<Row>): (text: string)
    ensures CsvLine(ClusterHeader) <= text
  {
    if rows == [] then CsvLine(ClusterHeader) else ClustersCsv(rows[..|rows| - 1]) + ClusterLine(rows[|rows| - 1])
  }

  /** `write_clusters(rows)`: the header, then each row that holds no `None`, in order. */
  method WriteClusters(rows: seq<Row>) returns (text: string)
    ensures text == ClustersCsv(rows)
  {
    text := CsvLine(ClusterHeader);
    for i := 0 to |rows|
      invariant text == ClustersCsv(rows[..i])
    {
      ClustersCsvStep(rows, i);
      if None in rows[i] {
        continue;
      }
      text := text + CsvLine(Values(rows[i]));
    }
    assert rows[..|rows|] == rows;
  }

  /** One more row adds its line, or nothing when it holds a `None`. */
  lemma ClustersCsvStep(rows: seq<Row>, i: nat)
    requires i < |rows|
    ensures None in rows[i] ==> ClustersCsv(rows[..i + 1]) == ClustersCsv(rows[..i])
    ensures None !in rows[i] ==> ClustersCsv(rows[..i + 1]) == ClustersCsv(rows[..i]) + CsvLine(Values(rows[i]))
  {
    assert rows[..i + 1][..i] == rows[..i];
  }

  /** Number of rows that hold no `None`. */
  function KeptRows(rows: seq<Row>): nat
  {
    if rows == [] then 0 else KeptRows(rows[..|rows| - 1]) + (if None in rows[|rows| - 1] then 0 else 1)
  }

  /** When no field holds a line break, the table has the header line and one line per row without `None`. */
  lemma {:induction false} ClustersCsvLineCount(rows: seq<Row>)
    requires forall k, j :: 0 <= k < |rows| && 0 <= j < |rows[k]| && rows[k][j].Some? ==> '\n' !in rows[k][j].value
    ensures Count(ClustersCsv(rows), '\n') == 1 + KeptRows(rows)
  {
    if rows == [] {
      CsvLineBreaks(ClusterHeader);
    } else {
      var init := rows[..|rows| - 1];
      var row := rows[|rows| - 1];
      assert forall k :: 0 <= k < |init| ==> init[k] == rows[k];
      ClustersCsvLineCount(init);
      CountSplit(ClustersCsv(init), ClusterLine(row), '\n');
      if None in row {
        assert ClusterLine(row) == [];
      } else {
        CsvLineBreaks(Values(row));
      }
    }
  }

  /** A line of fields without line breaks holds exactly one line break. */
  lemma CsvLineBreaks(fields: seq<string>)
    requires forall k :: 0 <= k < |fields| ==> '\n' !in fields[k]
    ensures Count(CsvLine(fields), '\n') == 1
  {
    JoinAvoids(fields, ',', '\n');
    CountAbsent(Join(fields, ','), '\n');
    CountSplit(Join(fields, ','), "\n", '\n');
  }

  /**
   * Every row `main` builds holds three strings, `str(None)` included, so
   * the skip in `write_clusters` never fires: each cluster gets its line.
   */
  lemma {:induction false} TallyRowsAllKept(haplotypes: seq<string>, sample: string, ps: seq<Processed>)
    ensures KeptRows(TallyOf(haplotypes, sample, ps).rows) == |ps|
  {
    if ps != [] {
      var init := ps[..|ps| - 1];
      TallyRowsAllKept(haplotypes, sample, init);
      var rows := TallyOf(haplotypes, sample, ps).rows;
      var p := ps[|ps| - 1];
      var row := [Some(sample), Some(p.cluster.stats.name), Some(PyStr(p.call))];
      assert rows == TallyOf(haplotypes, sample, init).rows + [row];
      assert rows[..|rows| - 1] == TallyOf(haplotypes, sample, init).rows;
      assert None !in row;
    }
  }

  // -----------------------------------------------------------------------
  // write_counts

  /** The five fixed columns, then `haplotype_<ht>_reads` for each configured haplotype, in order. */
  function CountsHeader(haplotypes: seq<string>): (header: seq<string>)
    ensures |header| == 5 + |haplotypes|
    ensures header[..5] == ["sample_name", "total_reads", "failed_qc", "failed_filters", "failed_haplotyping"]
    ensures forall j :: 0 <= j < |haplotypes| ==> header[5 + j] == "haplotype_" + haplotypes[j] + "_reads"
  {
    ["sample_name", "total_reads", "failed_qc", "failed_filters", "failed_haplotyping"]
      + seq(|haplotypes|, k requires 0 <= k < |haplotypes| => "haplotype_" + haplotypes[k] + "_reads")
  }

  /** `str(n)` for each count. */
  function NatStrings(ns: seq<nat>): (r: seq<string>)
    ensures |r| == |ns|
  {
    seq(|ns|, k requires 0 <= k < |ns| => IntToString(ns[k]))
  }

  /** `str(x) for x in row`. */
  function CountFields(row: CountRow): seq<string>
  {
    [row.sample, IntToString(row.totalReads), IntToString(row.failedQc), IntToString(row.failedFilters),
     IntToString(row.failedHaplotyping)]
      + NatStrings(row.haplotypeReads)
  }

  /** The text of the counts table: the header, then one line per row. */
  function CountsCsv(haplotypes: seq<string>, rows: seq<CountRow>): (text: string)
    ensures CsvLine(CountsHeader(haplotypes)) <= text
  {
    if rows == [] then CsvLine(CountsHeader(haplotypes))
    else CountsCsv(haplotypes, rows[..|rows| - 1]) + CsvLine(CountFields(rows[|rows| - 1]))
  }

  /** `write_counts(rows)`: the header, then every row, in order. */
  method WriteCounts(haplotypes: seq<string>, rows: seq<CountRow>) returns (text: string)
    ensures text == CountsCsv(haplotypes, rows)
  {
    text := CsvLine(CountsHeader(haplotypes));
    for i := 0 to |rows|
      invariant text == CountsCsv(haplotypes, rows[..i])
    {
      CountsCsvStep(haplotypes, rows, i);
      text := text + CsvLine(CountFields(rows[i]));
    }
    assert rows[..|rows|] == rows;
  }

  /** One more row adds its line. */
  lemma CountsCsvStep(haplotypes: seq<string>, rows: seq<CountRow>, i: nat)
    requires i < |rows|
    ensures CountsCsv(haplotypes, rows[..i + 1]) == CountsCsv(haplotypes, rows[..i]) + CsvLine(CountFields(rows[i]))
  {
    assert rows[..i + 1][..i] == rows[..i];
  }

  /** A count that must not be negative, read back. */
  function ReadNat(s: string): Option<nat>
  {
    match ReadInt(s)
    case Some(i) => if i >= 0 then Some(i) else None
    case None => None
  }

  function ReadNats(fields: seq<string>): Option<seq<nat>>
  {
    if fields == [] then Some([])
    else
      match (ReadNats(fields[..|fields| - 1]), ReadNat(fields[|fields| - 1]))
      case (Some(init), Some(n)) => Some(init + [n])
      case _ => None
  }

  /** Reading the fields of a counts row back into the row; the partner of `CountFields`. */
  function ReadCountRow(fields: seq<string>): Option<CountRow>
  {
    if |fields| < 5 then None
    else
      var columns := ReadNats(fields[5..]);
      match (ReadNat(fields[1]), ReadInt(fields[2]), ReadNat(fields[3]), ReadNat(fields[4]))
      case (Some(total), Some(failedQc), Some(failedFilters), Some(failedHaplotyping)) =>
        if columns.Some? then Some(CountRow(fields[0], total, failedQc, failedFilters, failedHaplotyping, columns.value))
        else None
      case _ => None
  }

  lemma {:induction false} ReadNatsBack(ns: seq<nat>)
    ensures ReadNats(NatStrings(ns)) == Some(ns)
  {
    if ns != [] {
      var n := |ns| - 1;
      var fields := NatStrings(ns);
      ReadNatsBack(ns[..n]);
      assert fields[..n] == NatStrings(ns[..n]);
      ReadNatBack(ns[n]);
      assert ns[..n] + [ns[n]] == ns;
    }
  }

  /** The fields of a counts row read back as the row: every number, `failed_qc` included when negative, survives `str` and `int`. */
  lemma ReadCountFields(row: CountRow)
    ensures ReadCountRow(CountFields(row)) == Some(row)
  {
    var fields := CountFields(row);
    var columns := NatStrings(row.haplotypeReads);
    assert fields[5..] == columns;
    ReadNatsBack(row.haplotypeReads);
    ReadNatBack(row.totalReads);
    IntToStringRoundTrip(row.failedQc);
    ReadNatBack(row.failedFilters);
    ReadNatBack(row.failedHaplotyping);
    assert fields[1] == IntToString(row.totalReads) && fields[2] == IntToString(row.failedQc);
    assert fields[3] == IntToString(row.failedFilters) && fields[4] == IntToString(row.failedHaplotyping);
  }

  lemma ReadNatBack(n: nat)
    ensures ReadNat(IntToString(n)) == Some(n)
  {
    IntToStringRoundTrip(n);
  }

  /** No count written holds a comma or a line break. */
  lemma NatStringsClean(ns: seq<nat>)
    ensures forall k :: 0 <= k < |ns| ==> ',' !in NatStrings(ns)[k] && '\n' !in NatStrings(ns)[k]
  {
    forall k | 0 <= k < |ns|
      ensures ',' !in NatStrings(ns)[k] && '\n' !in NatStrings(ns)[k]
    {
      IntToStringRoundTrip(ns[k]);
    }
  }

  /** No number written in a counts row holds a comma or a line break. */
  lemma CountFieldsClean(row: CountRow)
    requires ',' !in row.sample && '\n' !in row.sample
    ensures forall k :: 0 <= k < |CountFields(row)| ==> ',' !in CountFields(row)[k] && '\n' !in CountFields(row)[k]
  {
    var fixed := [row.sample, IntToString(row.totalReads), IntToString(row.failedQc), IntToString(row.failedFilters),
                  IntToString(row.failedHaplotyping)];
    var columns := NatStrings(row.haplotypeReads);
    IntToStringRoundTrip(row.totalReads);
    IntToStringRoundTrip(row.failedQc);
    IntToStringRoundTrip(row.failedFilters);
    IntToStringRoundTrip(row.failedHaplotyping);
    NatStringsClean(row.haplotypeReads);
    assert forall k :: 0 <= k < |fixed| ==> ',' !in fixed[k] && '\n' !in fixed[k];
    assert CountFields(row) == fixed + columns;
  }

  /**
   * A counts line reads back as the row it was written from, when the sample
   * name holds no comma or line break.
   */
  lemma CountLineRoundTrip(row: CountRow)
    requires ',' !in row.sample && '\n' !in row.sample
    ensures ReadCountRow(Split(Chomp(CsvLine(CountFields(row))), ',')) == Some(row)
  {
    CountFieldsClean(row);
    CsvLineRoundTrip(CountFields(row));
    ReadCountFields(row);
  }

  /**
   * The fields written for a sample line up with the header: one per
   * column, and under each header the number it names, `haplotype_<h>_reads`
   * holding the reads of the clusters called as `h`.
   */
  predicate UnderHeader(haplotypes: seq<string>, input: SampleInput, ps: seq<Processed>, fields: seq<string>)
  {
    && |fields| == |CountsHeader(haplotypes)|
    && fields[0] == input.name
    && fields[1] == IntToString(input.totalReads)
    && fields[2] == IntToString(input.totalReads - input.passedQc)
    && fields[3] == IntToString(FilteredReads(ps))
    && fields[4] == IntToString(UnknownReads(ps, haplotypes))
    && forall j :: 0 <= j < |haplotypes| ==> fields[5 + j] == IntToString(CalledReads(ps, haplotypes[j]))
  }

  /** A row whose columns mean what the headers say is written under those headers. */
  lemma RowFields(haplotypes: seq<string>, input: SampleInput, ps: seq<Processed>, row: CountRow)
    requires RowCounts(haplotypes, input, ps, row)
    ensures UnderHeader(haplotypes, input, ps, CountFields(row))
  {
    var fields := CountFields(row);
    assert fields[5..] == NatStrings(row.haplotypeReads);
    assert forall j :: 0 <= j < |haplotypes| ==> fields[5 + j] == fields[5..][j];
  }

  /**
   * Every counts line of a run lines up with the header: sample `k`'s line
   * has one field per column, and the field under `haplotype_<h>_reads` is
   * the reads of that sample's clusters called as `h`.
   */
  lemma ColumnsAligned(cfg: Config, tools: Tools, samples: seq<SampleInput>)
    requires RunOf(cfg, tools, samples).Success?
    ensures |RunOf(cfg, tools, samples).value.countRows| == |samples|
    ensures forall k :: 0 <= k < |samples| ==> (SampleClusters(cfg, tools, samples[k]).Success?
      && UnderHeader(cfg.haplotypes, samples[k], SampleClusters(cfg, tools, samples[k]).value,
                     CountFields(RunOf(cfg, tools, samples).value.countRows[k])))
  {
    RunCountRows(cfg, tools, samples);
    var rows := RunOf(cfg, tools, samples).value.countRows;
    forall k | 0 <= k < |samples|
      ensures UnderHeader(cfg.haplotypes, samples[k], SampleClusters(cfg, tools, samples[k]).value, CountFields(rows[k]))
    {
      RowFields(cfg.haplotypes, samples[k], SampleClusters(cfg, tools, samples[k]).value, rows[k]);
    }
  }

  // -----------------------------------------------------------------------
  // main

  /** The two files the script writes, by path and contents. */
  datatype OutputFiles = OutputFiles(clustersPath: string, clustersText: string, countsPath: string, countsText: string)

  /** The script's outcome: both tables, or the error that stopped it before anything was written. */
  function ScriptOf(cfg: Config, tools: Tools, samples: seq<SampleInput>): (r: Result<OutputFiles, RunError>)
    ensures r.Success? <==> RunOf(cfg, tools, samples).Success?
    ensures r.Failure? ==> r.error == RunOf(cfg, tools, samples).error
    ensures r.Success? ==> r.value.clustersPath != r.value.countsPath
    ensures r.Success? ==> CsvLine(ClusterHeader) <= r.value.clustersText && CsvLine(CountsHeader(cfg.haplotypes)) <= r.value.countsText
  {
    match RunOf(cfg, tools, samples)
    case Failure(e) => Failure(e)
    case Success(out) =>
      Success(OutputFiles("results/" + cfg.gene + ".clusters_by_haplotype.csv", ClustersCsv(out.clusterRows),
                          "results/" + cfg.gene + ".haplotype_counts.csv", CountsCsv(cfg.haplotypes, out.countRows)))
  }

  /** `main()`: tally every sample, then write the clusters table and the counts table. */
  method CountHaplotypes(cfg: Config, tools: Tools, samples: seq<SampleInput>) returns (r: Result<OutputFiles, RunError>)
    ensures r == ScriptOf(cfg, tools, samples)
  {
    var out := Run(cfg, tools, samples);
    if out.Failure? {
      return Failure(out.error);
    }
    var clusters := WriteClusters(out.value.clusterRows);
    var counts := WriteCounts(cfg.haplotypes, out.value.countRows);
    r := Success(OutputFiles("results/" + cfg.gene + ".clusters_by_haplotype.csv", clusters,
                             "results/" + cfg.gene + ".haplotype_counts.csv", counts));
  }
}
