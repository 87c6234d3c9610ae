/**
 * The counting loop of `main` (workflow/scripts/count.py, lines 96-117): for
 * every sample, every cluster record is parsed and its haplotype called, and
 * its read count goes to that haplotype's bucket or to the failed-haplotyping
 * bucket; reads of clusters from the failed file are also added up separately.
 */
module Tally {
  import opened Wrappers
  import opened Text
  import opened Records
  import opened Haplotyping
  import opened Reference

  /** The configuration keys the script reads; `guide` is the text of the guide FASTA file. */
  datatype Config = Config(haplotypes: seq<string>, gene: string, pos1: int, pos2: int, guide: string)

  /** What ends a run early; in the script each one is an uncaught exception. */
  datatype RunError = ParseFailed(parseError: ParseError) | CallFailed(callError: CallError)

  /** A record of `cluster_rows`: Python values that are strings, or `None`. */
  type Row = seq<Option<string>>

  /** A cluster together with its haplotype call (`None` for the unresolved sequence). */
  datatype Processed = Processed(cluster: Cluster, call: Option<string>)

  /** The per-sample state of `main`: `ht_counts`, `failed_filters`, `failed_haplotyping` and the rows built so far. */
  datatype SampleTally = SampleTally(counts: map<string, nat>, failedFilters: nat, failedHaplotyping: nat, rows: seq<Row>)

  /**
   * `str(haplotype)`: a call is written as itself and no call as the text
   * `None`, so a two-character entry in the table is always a call.
   */
  function PyStr(call: Option<string>): (r: string)
    ensures call.Some? ==> r == call.value
    ensures call.None? ==> r == "None"
    ensures |r| == 2 ==> call == Some(r)
  {
    match call
    case None => "None"
    case Some(h) => h
  }

  /** Every configured haplotype has a bucket. */
  predicate HasBuckets(haplotypes: seq<string>, counts: map<string, nat>)
  {
    forall h :: h in haplotypes ==> h in counts
  }

  // -----------------------------------------------------------------------
  // The records of a sample, in the order the generator yields them

  /** Every record of the passed file tagged `True`, then every record of the failed file tagged `False`. */
  function Source(passedText: string, failedText: string): (items: seq<(string, bool)>)
    ensures |items| == Count(passedText, '>') + Count(failedText, '>')
    ensures forall k :: 0 <= k < |SplitRecords(passedText)| ==> items[k] == (SplitRecords(passedText)[k], true)
    ensures forall k :: 0 <= k < |SplitRecords(failedText)| ==>
      items[|SplitRecords(passedText)| + k] == (SplitRecords(failedText)[k], false)
  {
    var passed := SplitRecords(passedText);
    var failed := SplitRecords(failedText);
    seq(|passed|, k requires 0 <= k < |passed| => (passed[k], true))
      + seq(|failed|, k requires 0 <= k < |failed| => (failed[k], false))
  }

  /**
   * One turn of the loop before any counting: parse the record, then call
   * its haplotype. It succeeds exactly when both do, and gives the parsed
   * record, with its file's flag, and its call.
   */
  function Process(cfg: Config, tools: Tools, reference: string, item: (string, bool)): (r: Result<Processed, RunError>)
    ensures ParseClusterStats(item.0).Failure? ==> r == Failure(ParseFailed(ParseClusterStats(item.0).error))
    ensures r.Success? <==> (ParseClusterStats(item.0).Success?
      && Haplotype(cfg.pos1, cfg.pos2, tools, reference, ParseClusterStats(item.0).value.sequence).Success?)
    ensures r.Success? ==> (ParseClusterStats(item.0) == Success(r.value.cluster.stats) && r.value.cluster.passedFilters == item.1
      && Haplotype(cfg.pos1, cfg.pos2, tools, reference, r.value.cluster.stats.sequence) == Success(r.value.call))
  {
    match ParseClusterStats(item.0)
    case Failure(e) => Failure(ParseFailed(e))
    case Success(stats) =>
      match Haplotype(cfg.pos1, cfg.pos2, tools, reference, stats.sequence)
      case Failure(e) => Failure(CallFailed(e))
      case Success(call) => Success(Processed(Cluster(stats, item.1), call))
  }

  /** The outcome of every record, each on its own. */
  function Outcomes(cfg: Config, tools: Tools, reference: string, items: seq<(string, bool)>): (r: seq<Result<Processed, RunError>>)
    ensures |r| == |items|
    ensures forall k :: 0 <= k < |items| ==> r[k] == Process(cfg, tools, reference, items[k])
  {
    seq(|items|, k requires 0 <= k < |items| => Process(cfg, tools, reference, items[k]))
  }

  /** Taking outcomes in order, stopping at the first failure. */
  function Gather(outcomes: seq<Result<Processed, RunError>>): Result<seq<Processed>, RunError>
  {
    if outcomes == [] then Success([])
    else
      match Gather(outcomes[..|outcomes| - 1])
      case Failure(e) => Failure(e)
      case Success(done) =>
        match outcomes[|outcomes| - 1]
        case Failure(e) => Failure(e)
        case Success(p) => Success(done + [p])
  }

  /** Processing a sample's records in order, stopping at the first that fails to parse or to be called. */
  function ProcessAll(cfg: Config, tools: Tools, reference: string, items: seq<(string, bool)>): Result<seq<Processed>, RunError>
  {
    Gather(Outcomes(cfg, tools, reference, items))
  }

  /** All outcomes are kept, in order, when all succeed. */
  lemma {:induction false} GatherSuccess(outcomes: seq<Result<Processed, RunError>>)
    ensures Gather(outcomes).Success? <==> forall k :: 0 <= k < |outcomes| ==> outcomes[k].Success?
    ensures Gather(outcomes).Success? ==> |Gather(outcomes).value| == |outcomes|
    ensures Gather(outcomes).Success? ==> forall k :: 0 <= k < |outcomes| ==> outcomes[k] == Success(Gather(outcomes).value[k])
  {
    if outcomes != [] {
      var init := outcomes[..|outcomes| - 1];
      GatherSuccess(init);
      assert forall k :: 0 <= k < |init| ==> outcomes[k] == init[k];
    }
  }

  /** On failure, the error is that of the first outcome that failed. */
  lemma {:induction false} GatherFailure(outcomes: seq<Result<Processed, RunError>>)
    requires Gather(outcomes).Failure?
    ensures exists k :: (0 <= k < |outcomes| && outcomes[k] == Failure(Gather(outcomes).error)
      && forall j :: 0 <= j < k ==> outcomes[j].Success?)
  {
    var n := |outcomes| - 1;
    var init := outcomes[..n];
    assert forall j :: 0 <= j < n ==> outcomes[j] == init[j];
    if Gather(init).Failure? {
      GatherFailure(init);
      var k :| 0 <= k < n && init[k] == Failure(Gather(init).error) && (forall j :: 0 <= j < k ==> init[j].Success?);
    } else {
      GatherSuccess(init);
    }
  }

  /** Taking one more outcome after a successful prefix. */
  lemma GatherStep(outcomes: seq<Result<Processed, RunError>>, i: nat)
    requires i < |outcomes| && Gather(outcomes[..i]).Success?
    ensures outcomes[i].Failure? ==> Gather(outcomes[..i + 1]) == Failure(outcomes[i].error)
    ensures outcomes[i].Success? ==> Gather(outcomes[..i + 1]) == Success(Gather(outcomes[..i]).value + [outcomes[i].value])
  {
    assert outcomes[..i + 1][..i] == outcomes[..i];
  }

  lemma {:induction false} GatherPrefixFails(outcomes: seq<Result<Processed, RunError>>, n: nat)
    requires n <= |outcomes| && Gather(outcomes[..n]).Failure?
    ensures Gather(outcomes) == Gather(outcomes[..n])
    decreases |outcomes| - n
  {
    if n < |outcomes| {
      assert outcomes[..n + 1][..n] == outcomes[..n];
      GatherPrefixFails(outcomes, n + 1);
    } else {
      assert outcomes[..n] == outcomes;
    }
  }

  /**
   * A sample is processed exactly when every record parses and is called;
   * then there is one result per record, in order; otherwise the error is
   * that of the first record that fails, as the generator meets them.
   */
  lemma ProcessAllOutcome(cfg: Config, tools: Tools, reference: string, items: seq<(string, bool)>)
    ensures ProcessAll(cfg, tools, reference, items).Success? <==>
      forall k :: 0 <= k < |items| ==> Process(cfg, tools, reference, items[k]).Success?
    ensures ProcessAll(cfg, tools, reference, items).Success? ==>
      |ProcessAll(cfg, tools, reference, items).value| == |items|
      && forall k :: 0 <= k < |items| ==>
        Process(cfg, tools, reference, items[k]) == Success(ProcessAll(cfg, tools, reference, items).value[k])
    ensures ProcessAll(cfg, tools, reference, items).Failure? ==> exists k :: (0 <= k < |items|
      && Process(cfg, tools, reference, items[k]) == Failure(ProcessAll(cfg, tools, reference, items).error)
      && forall j :: 0 <= j < k ==> Process(cfg, tools, reference, items[j]).Success?)
  {
    var outcomes := Outcomes(cfg, tools, reference, items);
    GatherSuccess(outcomes);
    if Gather(outcomes).Failure? {
      GatherFailure(outcomes);
    }
  }

  // -----------------------------------------------------------------------
  // Counting

  /** `{ht: 0 for ht in HAPLOTYPES}` and nothing counted yet. */
  function InitialTally(haplotypes: seq<string>): (t: SampleTally)
    ensures HasBuckets(haplotypes, t.counts)
    ensures forall h :: h in t.counts ==> h in haplotypes && t.counts[h] == 0
  {
    SampleTally(map h | h in haplotypes :: 0, 0, 0, [])
  }

  /** The body of the inner loop of `main` for one processed cluster. */
  function Step(haplotypes: seq<string>, sample: string, t: SampleTally, p: Processed): (r: SampleTally)
    requires HasBuckets(haplotypes, t.counts)
    ensures HasBuckets(haplotypes, r.counts)
  {
    var readCount := p.cluster.stats.readCount;
    var failedFilters := if p.cluster.passedFilters then t.failedFilters else t.failedFilters + readCount;
    var rows := t.rows + [[Some(sample), Some(p.cluster.stats.name), Some(PyStr(p.call))]];
    if p.call.Some? && p.call.value in haplotypes then
      var h := p.call.value;
      SampleTally(t.counts[h := t.counts[h] + readCount], failedFilters, t.failedHaplotyping, rows)
    else
      SampleTally(t.counts, failedFilters, t.failedHaplotyping + readCount, rows)
  }

  /** The state after the inner loop has run over `ps`. */
  function TallyOf(haplotypes: seq<string>, sample: string, ps: seq<Processed>): (t: SampleTally)
    ensures HasBuckets(haplotypes, t.counts)
  {
    if ps == [] then InitialTally(haplotypes)
    else Step(haplotypes, sample, TallyOf(haplotypes, sample, ps[..|ps| - 1]), ps[|ps| - 1])
  }

  /** One more cluster is one more step. */
  lemma TallyOfSnoc(haplotypes: seq<string>, sample: string, done: seq<Processed>, p: Processed)
    ensures TallyOf(haplotypes, sample, done + [p]) == Step(haplotypes, sample, TallyOf(haplotypes, sample, done), p)
  {
    assert (done + [p])[..|done|] == done;
  }

  /** The outcome for one sample: its tally, or the error that stopped the run. */
  function SampleOf(cfg: Config, tools: Tools, reference: string, sample: string, items: seq<(string, bool)>): (r: Result<SampleTally, RunError>)
    ensures r.Success? <==> ProcessAll(cfg, tools, reference, items).Success?
    ensures r.Failure? ==> r.error == ProcessAll(cfg, tools, reference, items).error
    ensures r.Success? ==> forall h :: h in r.value.counts <==> h in cfg.haplotypes
  {
    match ProcessAll(cfg, tools, reference, items)
    case Failure(e) => Failure(e)
    case Success(ps) =>
      TallyKeys(cfg.haplotypes, sample, ps);
      Success(TallyOf(cfg.haplotypes, sample, ps))
  }

  // -----------------------------------------------------------------------
  // What the buckets hold

  /** Reads of all clusters. */
  function Reads(ps: seq<Processed>): nat
  {
    if ps == [] then 0 else Reads(ps[..|ps| - 1]) + ps[|ps| - 1].cluster.stats.readCount
  }

  /** Reads of the clusters from the failed file. */
  function FilteredReads(ps: seq<Processed>): nat
  {
    if ps == [] then 0
    else
      var p := ps[|ps| - 1];
      FilteredReads(ps[..|ps| - 1]) + (if p.cluster.passedFilters then 0 else p.cluster.stats.readCount)
  }

  /** Reads of the clusters called as haplotype `h`. */
  function CalledReads(ps: seq<Processed>, h: string): nat
  {
    if ps == [] then 0
    else
      var p := ps[|ps| - 1];
      CalledReads(ps[..|ps| - 1], h) + (if p.call == Some(h) then p.cluster.stats.readCount else 0)
  }

  /** Reads of the clusters with a call that is one of `haplotypes`. */
  function KnownReads(ps: seq<Processed>, haplotypes: seq<string>): nat
  {
    if ps == [] then 0
    else
      var p := ps[|ps| - 1];
      KnownReads(ps[..|ps| - 1], haplotypes)
      + (if p.call.Some? && p.call.value in haplotypes then p.cluster.stats.readCount else 0)
  }

  /** Reads of the clusters with no call, or a call that is not one of `haplotypes`. */
  function UnknownReads(ps: seq<Processed>, haplotypes: seq<string>): nat
  {
    if ps == [] then 0
    else
      var p := ps[|ps| - 1];
      UnknownReads(ps[..|ps| - 1], haplotypes)
      + (if p.call.Some? && p.call.value in haplotypes then 0 else p.cluster.stats.readCount)
  }

  /** The buckets are exactly the configured haplotypes: a call outside the list never gets one. */
  lemma {:induction false} TallyKeys(haplotypes: seq<string>, sample: string, ps: seq<Processed>)
    ensures forall h :: h in TallyOf(haplotypes, sample, ps).counts <==> h in haplotypes
  {
    if ps != [] {
      TallyKeys(haplotypes, sample, ps[..|ps| - 1]);
    }
  }

  /** Each configured haplotype's bucket holds the reads of exactly the clusters called as it. */
  lemma {:induction false} TallyCounts(haplotypes: seq<string>, sample: string, ps: seq<Processed>, h: string)
    requires h in haplotypes
    ensures TallyOf(haplotypes, sample, ps).counts[h] == CalledReads(ps, h)
  {
    if ps != [] {
      TallyCounts(haplotypes, sample, ps[..|ps| - 1], h);
    }
  }

  /** `failed_filters` holds the reads of the failed file's clusters, whatever their call. */
  lemma {:induction false} TallyFailedFilters(haplotypes: seq<string>, sample: string, ps: seq<Processed>)
    ensures TallyOf(haplotypes, sample, ps).failedFilters == FilteredReads(ps)
  {
    if ps != [] {
      TallyFailedFilters(haplotypes, sample, ps[..|ps| - 1]);
    }
  }

  /** `failed_haplotyping` holds the reads of the clusters with no call or an unlisted one. */
  lemma {:induction false} TallyFailedHaplotyping(haplotypes: seq<string>, sample: string, ps: seq<Processed>)
    ensures TallyOf(haplotypes, sample, ps).failedHaplotyping == UnknownReads(ps, haplotypes)
  {
    if ps != [] {
      TallyFailedHaplotyping(haplotypes, sample, ps[..|ps| - 1]);
    }
  }

  /** The cluster rows of one sample: its name, each cluster's name and `str` of its call, in order. */
  function ClusterRowsOf(sample: string, ps: seq<Processed>): (rows: seq<Row>)
    ensures |rows| == |ps|
    ensures forall k :: 0 <= k < |ps| ==> rows[k] == [Some(sample), Some(ps[k].cluster.stats.name), Some(PyStr(ps[k].call))]
  {
    seq(|ps|, k requires 0 <= k < |ps| => [Some(sample), Some(ps[k].cluster.stats.name), Some(PyStr(ps[k].call))])
  }

  /** One row per cluster, in order: the sample, the cluster name and the call as text. */
  lemma {:induction false} TallyRows(haplotypes: seq<string>, sample: string, ps: seq<Processed>)
    ensures TallyOf(haplotypes, sample, ps).rows == ClusterRowsOf(sample, ps)
  {
    if ps != [] {
      var init := ps[..|ps| - 1];
      TallyRows(haplotypes, sample, init);
      assert forall k :: 0 <= k < |init| ==> ps[k] == init[k];
    }
  }

  /** Every read lands in exactly one of the known and unknown buckets. */
  lemma {:induction false} ReadsSplit(ps: seq<Processed>, haplotypes: seq<string>)
    ensures KnownReads(ps, haplotypes) + UnknownReads(ps, haplotypes) == Reads(ps)
  {
    if ps != [] {
      ReadsSplit(ps[..|ps| - 1], haplotypes);
    }
  }

  /**
   * The sum of the buckets of `ht_counts`: one per distinct listed haplotype,
   * so an entry listed again later is counted only at its last place.
   */
  function BucketSum(ps: seq<Processed>, haplotypes: seq<string>): nat
  {
    if haplotypes == [] then 0
    else (if haplotypes[0] in haplotypes[1..] then 0 else CalledReads(ps, haplotypes[0])) + BucketSum(ps, haplotypes[1..])
  }

  lemma {:induction false} KnownReadsCons(ps: seq<Processed>, h: string, rest: seq<string>)
    requires h !in rest
    ensures KnownReads(ps, [h] + rest) == CalledReads(ps, h) + KnownReads(ps, rest)
  {
    if ps != [] {
      KnownReadsCons(ps[..|ps| - 1], h, rest);
    }
  }

  lemma {:induction false} KnownReadsDup(ps: seq<Processed>, h: string, rest: seq<string>)
    requires h in rest
    ensures KnownReads(ps, [h] + rest) == KnownReads(ps, rest)
  {
    if ps != [] {
      KnownReadsDup(ps[..|ps| - 1], h, rest);
    }
  }

  lemma {:induction false} KnownReadsNone(ps: seq<Processed>)
    ensures KnownReads(ps, []) == 0
  {
    if ps != [] {
      KnownReadsNone(ps[..|ps| - 1]);
    }
  }

  /** The buckets add up to the reads with a listed call. */
  lemma {:induction false} BucketSumKnown(ps: seq<Processed>, haplotypes: seq<string>)
    ensures BucketSum(ps, haplotypes) == KnownReads(ps, haplotypes)
  {
    if haplotypes == [] {
      KnownReadsNone(ps);
    } else {
      var rest := haplotypes[1..];
      assert haplotypes == [haplotypes[0]] + rest;
      BucketSumKnown(ps, rest);
      if haplotypes[0] in rest {
        KnownReadsDup(ps, haplotypes[0], rest);
      } else {
        KnownReadsCons(ps, haplotypes[0], rest);
      }
    }
  }

  /**
   * No read is lost or counted twice among the haplotype buckets and
   * `failed_haplotyping`: together they hold all reads of the sample,
   * including those of the failed file, which `failed_filters` counts again.
   */
  lemma Conservation(haplotypes: seq<string>, sample: string, ps: seq<Processed>)
    ensures BucketSum(ps, haplotypes) + TallyOf(haplotypes, sample, ps).failedHaplotyping == Reads(ps)
    ensures TallyOf(haplotypes, sample, ps).failedFilters <= Reads(ps)
  {
    BucketSumKnown(ps, haplotypes);
    ReadsSplit(ps, haplotypes);
    TallyFailedHaplotyping(haplotypes, sample, ps);
    TallyFailedFilters(haplotypes, sample, ps);
    FilteredAtMostAll(ps);
  }

  lemma {:induction false} FilteredAtMostAll(ps: seq<Processed>)
    ensures FilteredReads(ps) <= Reads(ps)
  {
    if ps != [] {
      FilteredAtMostAll(ps[..|ps| - 1]);
    }
  }

  /** The clusters of processed records. */
  function ClustersIn(ps: seq<Processed>): (cs: seq<Cluster>)
    ensures |cs| == |ps| && forall k :: 0 <= k < |ps| ==> cs[k] == ps[k].cluster
  {
    seq(|ps|, k requires 0 <= k < |ps| => ps[k].cluster)
  }

  /** Each record parsed to the cluster of the processed record at the same place, with its file's flag. */
  predicate ParsedAs(items: seq<(string, bool)>, ps: seq<Processed>)
  {
    && |items| == |ps|
    && forall k :: 0 <= k < |items| ==>
      ParseClusterStats(items[k].0) == Success(ps[k].cluster.stats) && ps[k].cluster.passedFilters == items[k].1
  }

  /** Every record of a processed sample parsed to its cluster, with its file's flag. */
  lemma ProcessedRecords(cfg: Config, tools: Tools, reference: string, items: seq<(string, bool)>)
    requires ProcessAll(cfg, tools, reference, items).Success?
    ensures ParsedAs(items, ProcessAll(cfg, tools, reference, items).value)
  {
    ProcessAllOutcome(cfg, tools, reference, items);
  }

  /** Records that all parsed to the clusters of `ps` are collected as exactly those clusters. */
  lemma {:induction false} CollectClusters(results: seq<Result<ClusterStats, ParseError>>, passedFilters: bool, ps: seq<Processed>)
    requires |results| == |ps|
    requires forall k :: 0 <= k < |ps| ==> results[k] == Success(ps[k].cluster.stats) && ps[k].cluster.passedFilters == passedFilters
    ensures Collect(results, passedFilters) == Success(ClustersIn(ps))
  {
    if ps != [] {
      var n := |ps| - 1;
      CollectClusters(results[..n], passedFilters, ps[..n]);
      assert ClustersIn(ps) == ClustersIn(ps[..n]) + [Cluster(ps[n].cluster.stats, passedFilters)];
    }
  }

  /** The passed file's records, parsed as the front of `ps`, are collected as its clusters. */
  lemma ParsedPassed(passedText: string, failedText: string, ps: seq<Processed>)
    requires ParsedAs(Source(passedText, failedText), ps)
    ensures |SplitRecords(passedText)| <= |ps|
    ensures FileClusters(passedText, true) == Success(ClustersIn(ps[..|SplitRecords(passedText)|]))
  {
    var items := Source(passedText, failedText);
    var passed := SplitRecords(passedText);
    var front := ps[..|passed|];
    forall k | 0 <= k < |passed|
      ensures ParseEach(passed)[k] == Success(front[k].cluster.stats) && front[k].cluster.passedFilters == true
    {
      assert items[k] == (passed[k], true);
    }
    CollectClusters(ParseEach(passed), true, front);
  }

  /** The failed file's records, parsed as the rest of `ps`, are collected as its clusters. */
  lemma ParsedFailed(passedText: string, failedText: string, ps: seq<Processed>)
    requires ParsedAs(Source(passedText, failedText), ps)
    ensures |SplitRecords(passedText)| <= |ps|
    ensures FileClusters(failedText, false) == Success(ClustersIn(ps[|SplitRecords(passedText)|..]))
  {
    var items := Source(passedText, failedText);
    var np := |SplitRecords(passedText)|;
    var failed := SplitRecords(failedText);
    var rest := ps[np..];
    forall k | 0 <= k < |failed|
      ensures ParseEach(failed)[k] == Success(rest[k].cluster.stats) && rest[k].cluster.passedFilters == false
    {
      assert items[np + k] == (failed[k], false);
      assert rest[k] == ps[np + k];
    }
    CollectClusters(ParseEach(failed), false, rest);
  }

  /** A sample whose records all parsed to `ps` yields exactly the clusters of `ps` from `get_clusters`. */
  lemma ParsedClusters(passedText: string, failedText: string, ps: seq<Processed>)
    requires ParsedAs(Source(passedText, failedText), ps)
    ensures ClustersOf(passedText, failedText) == Success(ClustersIn(ps))
  {
    ParsedPassed(passedText, failedText, ps);
    ParsedFailed(passedText, failedText, ps);
    ClustersInSplit(ps, |SplitRecords(passedText)|);
  }

  /**
   * When a sample is processed, its clusters are exactly those `get_clusters`
   * yields: the same records, in the same order, with the same filter flag.
   */
  lemma ProcessedClusters(cfg: Config, tools: Tools, reference: string, passedText: string, failedText: string)
    requires ProcessAll(cfg, tools, reference, Source(passedText, failedText)).Success?
    ensures ClustersOf(passedText, failedText)
         == Success(ClustersIn(ProcessAll(cfg, tools, reference, Source(passedText, failedText)).value))
  {
    var items := Source(passedText, failedText);
    ProcessedRecords(cfg, tools, reference, items);
    ParsedClusters(passedText, failedText, ProcessAll(cfg, tools, reference, items).value);
  }

  lemma ClustersInSplit(ps: seq<Processed>, n: nat)
    requires n <= |ps|
    ensures ClustersIn(ps) == ClustersIn(ps[..n]) + ClustersIn(ps[n..])
  {
  }

  /** No call holds a capital letter. */
  predicate LowerCaseCalls(ps: seq<Processed>)
  {
    forall k, j :: 0 <= k < |ps| && ps[k].call.Some? && 0 <= j < |ps[k].call.value| ==> !IsUpper(ps[k].call.value[j])
  }

  /** Every call made for a processed sample is in lower case. */
  lemma CallsLowerCase(cfg: Config, tools: Tools, reference: string, items: seq<(string, bool)>)
    requires ProcessAll(cfg, tools, reference, items).Success?
    ensures LowerCaseCalls(ProcessAll(cfg, tools, reference, items).value)
  {
    ProcessAllOutcome(cfg, tools, reference, items);
  }

  /** A haplotype with a capital letter in it never equals a lower-case call, so its bucket stays 0. */
  lemma {:induction false} CapitalHaplotypeNeverCounted(ps: seq<Processed>, h: string)
    requires LowerCaseCalls(ps)
    requires exists j :: 0 <= j < |h| && IsUpper(h[j])
    ensures CalledReads(ps, h) == 0
  {
    if ps != [] {
      var init := ps[..|ps| - 1];
      assert forall k :: 0 <= k < |init| ==> init[k] == ps[k];
      CapitalHaplotypeNeverCounted(init, h);
    }
  }

  /**
   * The body of the inner loop of `main` once a cluster is parsed and called:
   * its reads go to `failed_filters` when it comes from the failed file, to
   * its haplotype's bucket or to `failed_haplotyping`, and its row is added.
   */
  method CountCluster(haplotypes: seq<string>, sample: string, t: SampleTally, p: Processed) returns (r: SampleTally)
    requires HasBuckets(haplotypes, t.counts)
    ensures r == Step(haplotypes, sample, t, p)
  {
    var htCounts := t.counts;
    var failedFilters := t.failedFilters;
    var failedHaplotyping := t.failedHaplotyping;
    var readCount := p.cluster.stats.readCount;
    if !p.cluster.passedFilters {
      failedFilters := failedFilters + readCount;
    }
    var haplotype := p.call;
    if haplotype.Some? && haplotype.value in haplotypes {
      htCounts := htCounts[haplotype.value := htCounts[haplotype.value] + readCount];
    } else {
      failedHaplotyping := failedHaplotyping + readCount;
    }
    var row := [Some(sample), Some(p.cluster.stats.name), Some(PyStr(haplotype))];
    r := SampleTally(htCounts, failedFilters, failedHaplotyping, t.rows + [row]);
  }

  /** Processing record `i` after a successful prefix either ends the sample with its error or extends the prefix. */
  lemma ProcessStep(cfg: Config, tools: Tools, reference: string, items: seq<(string, bool)>, i: nat, done: seq<Processed>)
    requires i < |items| && Gather(Outcomes(cfg, tools, reference, items)[..i]) == Success(done)
    ensures Process(cfg, tools, reference, items[i]).Failure? ==>
      ProcessAll(cfg, tools, reference, items) == Failure(Process(cfg, tools, reference, items[i]).error)
    ensures Process(cfg, tools, reference, items[i]).Success? ==>
      Gather(Outcomes(cfg, tools, reference, items)[..i + 1]) == Success(done + [Process(cfg, tools, reference, items[i]).value])
  {
    var outcomes := Outcomes(cfg, tools, reference, items);
    GatherStep(outcomes, i);
    if outcomes[i].Failure? {
      GatherPrefixFails(outcomes, i + 1);
    }
  }

  /**
   * The inner loop of `main` for one sample, over the records as the
   * generator yields them.
   */
  method TallySample(cfg: Config, tools: Tools, reference: string, sample: string, items: seq<(string, bool)>)
    returns (r: Result<SampleTally, RunError>)
    ensures r == SampleOf(cfg, tools, reference, sample, items)
  {
    var tally := InitialTally(cfg.haplotypes);
    ghost var outcomes := Outcomes(cfg, tools, reference, items);
    ghost var done: seq<Processed> := [];
    for i := 0 to |items|
      invariant Gather(outcomes[..i]) == Success(done)
      invariant tally == TallyOf(cfg.haplotypes, sample, done)
    {
      var outcome := Process(cfg, tools, reference, items[i]);
      ProcessStep(cfg, tools, reference, items, i, done);
      if outcome.Failure? {
        return Failure(outcome.error);
      }
      TallyOfSnoc(cfg.haplotypes, sample, done, outcome.value);
      tally := CountCluster(cfg.haplotypes, sample, tally, outcome.value);
      done := done + [outcome.value];
    }
    assert outcomes[..|items|] == outcomes;
    r := Success(tally);
  }

  // -----------------------------------------------------------------------
  // The outer loop of `main`, over the samples

  /**
   * What the script reads for one sample: its name, the line counts of its
   * read index and of its read-info file, and the text of its two cluster files.
   */
  datatype SampleInput = SampleInput(name: string, totalReads: nat, passedQc: nat, passedText: string, failedText: string)

  /** One row of the counts table, before formatting. */
  datatype CountRow = CountRow(sample: string, totalReads: nat, failedQc: int, failedFilters: nat,
                               failedHaplotyping: nat, haplotypeReads: seq<nat>)

  /** What `main` hands to the two writers: `cluster_rows` and `rows`. */
  datatype RunOutput = RunOutput(clusterRows: seq<Row>, countRows: seq<CountRow>)

  /** The row `main` appends for a sample: `failed_qc` is not clamped, and one bucket per configured haplotype, in order. */
  function CountRowOf(haplotypes: seq<string>, input: SampleInput, t: SampleTally): (row: CountRow)
    requires HasBuckets(haplotypes, t.counts)
    ensures |row.haplotypeReads| == |haplotypes|
  {
    CountRow(input.name, input.totalReads, input.totalReads - input.passedQc, t.failedFilters, t.failedHaplotyping,
             seq(|haplotypes|, k requires 0 <= k < |haplotypes| => t.counts[haplotypes[k]]))
  }

  /**
   * The columns of a sample's row mean what their headers say: the sample,
   * its reads, every read not counted by the QC step, the reads of the failed
   * file, the reads with no listed call, and for each listed haplotype, in
   * list order, the reads called as it.
   */
  predicate RowCounts(haplotypes: seq<string>, input: SampleInput, ps: seq<Processed>, row: CountRow)
  {
    && row.sample == input.name
    && row.totalReads == input.totalReads
    && row.failedQc == input.totalReads - input.passedQc
    && row.failedFilters == FilteredReads(ps)
    && row.failedHaplotyping == UnknownReads(ps, haplotypes)
    && |row.haplotypeReads| == |haplotypes|
    && (forall k :: 0 <= k < |haplotypes| ==> row.haplotypeReads[k] == CalledReads(ps, haplotypes[k]))
  }

  /** The row `main` builds from a sample's tally has the columns its headers promise. */
  lemma CountRowColumns(haplotypes: seq<string>, input: SampleInput, ps: seq<Processed>)
    ensures RowCounts(haplotypes, input, ps, CountRowOf(haplotypes, input, TallyOf(haplotypes, input.name, ps)))
  {
    TallyFailedFilters(haplotypes, input.name, ps);
    TallyFailedHaplotyping(haplotypes, input.name, ps);
    forall k | 0 <= k < |haplotypes|
      ensures TallyOf(haplotypes, input.name, ps).counts[haplotypes[k]] == CalledReads(ps, haplotypes[k])
    {
      TallyCounts(haplotypes, input.name, ps, haplotypes[k]);
    }
  }

  /** The outcome of one sample of the run. */
  function SampleRun(cfg: Config, tools: Tools, input: SampleInput): Result<SampleTally, RunError>
  {
    SampleOf(cfg, tools, ReferenceSequence(cfg.guide), input.name, Source(input.passedText, input.failedText))
  }

  /** Adding a sample's results to what the earlier samples produced. */
  function Extend(haplotypes: seq<string>, out: RunOutput, input: SampleInput, t: SampleTally): RunOutput
    requires HasBuckets(haplotypes, t.counts)
  {
    RunOutput(out.clusterRows + t.rows, out.countRows + [CountRowOf(haplotypes, input, t)])
  }

  /** The outcome of every sample, each on its own. */
  function SampleRuns(cfg: Config, tools: Tools, samples: seq<SampleInput>): (r: seq<Result<SampleTally, RunError>>)
    ensures |r| == |samples|
    ensures forall k :: 0 <= k < |samples| ==> r[k] == SampleRun(cfg, tools, samples[k])
    ensures forall k :: 0 <= k < |samples| && r[k].Success? ==> HasBuckets(cfg.haplotypes, r[k].value.counts)
  {
    seq(|samples|, k requires 0 <= k < |samples| => SampleRun(cfg, tools, samples[k]))
  }

  /** Taking the samples' outcomes in order, stopping at the first failure. */
  function Assemble(haplotypes: seq<string>, samples: seq<SampleInput>, results: seq<Result<SampleTally, RunError>>): Result<RunOutput, RunError>
    requires |results| == |samples|
    requires forall k :: 0 <= k < |results| && results[k].Success? ==> HasBuckets(haplotypes, results[k].value.counts)
  {
    if samples == [] then Success(RunOutput([], []))
    else
      var n := |samples| - 1;
      match Assemble(haplotypes, samples[..n], results[..n])
      case Failure(e) => Failure(e)
      case Success(out) =>
        match results[n]
        case Failure(e) => Failure(e)
        case Success(t) => Success(Extend(haplotypes, out, samples[n], t))
  }

  /** The whole loop over the samples, in the order listed; the first failure ends the run. */
  function RunOf(cfg: Config, tools: Tools, samples: seq<SampleInput>): (r: Result<RunOutput, RunError>)
    ensures r.Success? <==> forall k :: 0 <= k < |samples| ==> SampleRun(cfg, tools, samples[k]).Success?
  {
    AssembleOutcome(cfg.haplotypes, samples, SampleRuns(cfg, tools, samples));
    Assemble(cfg.haplotypes, samples, SampleRuns(cfg, tools, samples))
  }

  /** Every sample's outcome is a success. */
  predicate AllSucceed(results: seq<Result<SampleTally, RunError>>)
  {
    forall k :: 0 <= k < |results| ==> results[k].Success?
  }

  /** The samples' cluster rows, joined in order. */
  function AllRows(results: seq<Result<SampleTally, RunError>>): seq<Row>
    requires AllSucceed(results)
  {
    if results == [] then [] else AllRows(results[..|results| - 1]) + results[|results| - 1].value.rows
  }

  /**
   * The samples' outcomes come together exactly when all succeed; then row
   * `k` of `rows` is the row of sample `k`, and `cluster_rows` is every
   * sample's cluster rows, joined in order.
   */
  lemma {:induction false} AssembleOutcome(haplotypes: seq<string>, samples: seq<SampleInput>, results: seq<Result<SampleTally, RunError>>)
    requires |results| == |samples|
    requires forall k :: 0 <= k < |results| && results[k].Success? ==> HasBuckets(haplotypes, results[k].value.counts)
    ensures Assemble(haplotypes, samples, results).Success? <==> AllSucceed(results)
    ensures Assemble(haplotypes, samples, results).Success? ==>
      && |Assemble(haplotypes, samples, results).value.countRows| == |samples|
      && forall k :: 0 <= k < |samples| ==> (results[k].Success?
        && Assemble(haplotypes, samples, results).value.countRows[k] == CountRowOf(haplotypes, samples[k], results[k].value))
    ensures Assemble(haplotypes, samples, results).Success? ==>
      AllSucceed(results) && Assemble(haplotypes, samples, results).value.clusterRows == AllRows(results)
  {
    if samples != [] {
      var n := |samples| - 1;
      AssembleOutcome(haplotypes, samples[..n], results[..n]);
      assert forall k :: 0 <= k < n ==> samples[k] == samples[..n][k] && results[k] == results[..n][k];
    }
  }

  /** The clusters of a sample, as processed for the run, or the error that stops it. */
  function SampleClusters(cfg: Config, tools: Tools, input: SampleInput): Result<seq<Processed>, RunError>
  {
    ProcessAll(cfg, tools, ReferenceSequence(cfg.guide), Source(input.passedText, input.failedText))
  }

  /** Every sample's clusters are processed. */
  predicate AllProcessed(cfg: Config, tools: Tools, samples: seq<SampleInput>)
  {
    forall k :: 0 <= k < |samples| ==> SampleClusters(cfg, tools, samples[k]).Success?
  }

  /** Each sample's cluster rows, for the given clusters of each, sample after sample. */
  function JoinRows(samples: seq<SampleInput>, clusters: seq<seq<Processed>>): seq<Row>
    requires |clusters| == |samples|
  {
    if samples == [] then []
    else
      var n := |samples| - 1;
      JoinRows(samples[..n], clusters[..n]) + ClusterRowsOf(samples[n].name, clusters[n])
  }

  /** The processed clusters of every sample. */
  function AllClusters(cfg: Config, tools: Tools, samples: seq<SampleInput>): (clusters: seq<seq<Processed>>)
    requires AllProcessed(cfg, tools, samples)
    ensures |clusters| == |samples|
    ensures forall k :: 0 <= k < |samples| ==> SampleClusters(cfg, tools, samples[k]) == Success(clusters[k])
  {
    seq(|samples|, k requires 0 <= k < |samples| => SampleClusters(cfg, tools, samples[k]).value)
  }

  /** `cluster_rows` as it should be: each sample's cluster rows, sample after sample. */
  function ClusterTable(cfg: Config, tools: Tools, samples: seq<SampleInput>): seq<Row>
    requires AllProcessed(cfg, tools, samples)
  {
    JoinRows(samples, AllClusters(cfg, tools, samples))
  }

  /** Tallies that each hold their sample's cluster rows join into those rows, sample after sample. */
  lemma {:induction false} TableRows(samples: seq<SampleInput>, clusters: seq<seq<Processed>>, results: seq<Result<SampleTally, RunError>>)
    requires |results| == |samples| && |clusters| == |samples|
    requires forall k :: 0 <= k < |samples| ==>
      results[k].Success? && results[k].value.rows == ClusterRowsOf(samples[k].name, clusters[k])
    ensures AllSucceed(results) && AllRows(results) == JoinRows(samples, clusters)
  {
    if samples != [] {
      var n := |samples| - 1;
      assert forall k :: 0 <= k < n ==> samples[k] == samples[..n][k] && results[k] == results[..n][k] && clusters[k] == clusters[..n][k];
      TableRows(samples[..n], clusters[..n], results[..n]);
    }
  }

  /** A sample whose clusters are processed is tallied, with one cluster row per cluster. */
  lemma SampleRunRows(cfg: Config, tools: Tools, input: SampleInput)
    requires SampleClusters(cfg, tools, input).Success?
    ensures SampleRun(cfg, tools, input).Success?
    ensures SampleRun(cfg, tools, input).value.rows == ClusterRowsOf(input.name, SampleClusters(cfg, tools, input).value)
  {
    TallyRows(cfg.haplotypes, input.name, SampleClusters(cfg, tools, input).value);
  }

  /**
   * The run succeeds exactly when every sample's clusters are processed.
   * Then there is one counts row per sample, in order, whose columns mean
   * what their headers say for that sample's clusters, and `cluster_rows`
   * is every sample's cluster rows, sample after sample.
   */
  lemma RunCountRows(cfg: Config, tools: Tools, samples: seq<SampleInput>)
    ensures RunOf(cfg, tools, samples).Success? <==> AllProcessed(cfg, tools, samples)
    ensures RunOf(cfg, tools, samples).Success? ==>
      && |RunOf(cfg, tools, samples).value.countRows| == |samples|
      && forall k :: 0 <= k < |samples| ==> (SampleClusters(cfg, tools, samples[k]).Success?
        && RowCounts(cfg.haplotypes, samples[k], SampleClusters(cfg, tools, samples[k]).value, RunOf(cfg, tools, samples).value.countRows[k]))
    ensures RunOf(cfg, tools, samples).Success? ==>
      AllProcessed(cfg, tools, samples) && RunOf(cfg, tools, samples).value.clusterRows == ClusterTable(cfg, tools, samples)
  {
    var results := SampleRuns(cfg, tools, samples);
    AssembleOutcome(cfg.haplotypes, samples, results);
    forall k | 0 <= k < |samples| && SampleClusters(cfg, tools, samples[k]).Success?
      ensures results[k].Success?
      ensures RowCounts(cfg.haplotypes, samples[k], SampleClusters(cfg, tools, samples[k]).value,
                        CountRowOf(cfg.haplotypes, samples[k], results[k].value))
    {
      CountRowColumns(cfg.haplotypes, samples[k], SampleClusters(cfg, tools, samples[k]).value);
    }
    if AllProcessed(cfg, tools, samples) {
      var clusters := AllClusters(cfg, tools, samples);
      forall k | 0 <= k < |samples|
        ensures results[k].Success? && results[k].value.rows == ClusterRowsOf(samples[k].name, clusters[k])
      {
        SampleRunRows(cfg, tools, samples[k]);
      }
      TableRows(samples, clusters, results);
    }
  }

  /** A run that failed on a prefix of the samples has failed for good. */
  lemma {:induction false} AssemblePrefixFails(haplotypes: seq<string>, samples: seq<SampleInput>, results: seq<Result<SampleTally, RunError>>, n: nat)
    requires |results| == |samples|
    requires forall k :: 0 <= k < |results| && results[k].Success? ==> HasBuckets(haplotypes, results[k].value.counts)
    requires n <= |samples| && Assemble(haplotypes, samples[..n], results[..n]).Failure?
    ensures Assemble(haplotypes, samples, results) == Assemble(haplotypes, samples[..n], results[..n])
    decreases |samples| - n
  {
    if n < |samples| {
      assert samples[..n + 1][..n] == samples[..n];
      assert results[..n + 1][..n] == results[..n];
      AssemblePrefixFails(haplotypes, samples, results, n + 1);
    } else {
      assert samples[..n] == samples;
      assert results[..n] == results;
    }
  }

  lemma AssembleStep(haplotypes: seq<string>, samples: seq<SampleInput>, results: seq<Result<SampleTally, RunError>>, i: nat)
    requires |results| == |samples|
    requires forall k :: 0 <= k < |results| && results[k].Success? ==> HasBuckets(haplotypes, results[k].value.counts)
    requires i < |samples| && Assemble(haplotypes, samples[..i], results[..i]).Success?
    ensures results[i].Failure? ==> Assemble(haplotypes, samples[..i + 1], results[..i + 1]) == Failure(results[i].error)
    ensures results[i].Success? ==>
      Assemble(haplotypes, samples[..i + 1], results[..i + 1]) == Success(Extend(haplotypes, Assemble(haplotypes, samples[..i], results[..i]).value, samples[i], results[i].value))
  {
    assert samples[..i + 1][..i] == samples[..i];
    assert results[..i + 1][..i] == results[..i];
  }

  /**
   * `main` up to the two writers: every sample is tallied in turn, its
   * cluster rows added to `cluster_rows` and its counts row to `rows`.
   */
  method Run(cfg: Config, tools: Tools, samples: seq<SampleInput>) returns (r: Result<RunOutput, RunError>)
    ensures r == RunOf(cfg, tools, samples)
  {
    var reference := ReferenceSequence(cfg.guide);
    ghost var results := SampleRuns(cfg, tools, samples);
    var clusterRows: seq<Row> := [];
    var rows: seq<CountRow> := [];
    for i := 0 to |samples|
      invariant Assemble(cfg.haplotypes, samples[..i], results[..i]) == Success(RunOutput(clusterRows, rows))
    {
      var input := samples[i];
      var tally := TallySample(cfg, tools, reference, input.name, Source(input.passedText, input.failedText));
      assert tally == results[i];
      AssembleStep(cfg.haplotypes, samples, results, i);
      if tally.Failure? {
        AssemblePrefixFails(cfg.haplotypes, samples, results, i + 1);
        return Failure(tally.error);
      }
      clusterRows := clusterRows + tally.value.rows;
      rows := rows + [CountRowOf(cfg.haplotypes, input, tally.value)];
    }
    assert samples[..|samples|] == samples;
    assert results[..|samples|] == results;
    r := Success(RunOutput(clusterRows, rows));
  }
}
