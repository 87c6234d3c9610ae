/**
 * Cluster records as the clustering step writes them: FASTA-like text in
 * which every record starts with `>`, a label line carrying the read count,
 * the cluster number and the cluster frequency, then the consensus sequence
 * (workflow/scripts/count.py, `get_cluster_stats` and `get_clusters`).
 */
module Records {
  import opened Wrappers
  import opened Text

  /** Why a record could not be read; in the script each one is an uncaught exception. */
  datatype ParseError =
    | NoLineBreak(record: string)  // `label, seq = record.split('\n', 1)` finds one value to unpack
    | NoReadCount(line: string)   // `re.search(r'ReadCount-(\d+)', label)` is None
    | NoClusterName(line: string) // `re.search(r'cluster-(\d+)', label)` is None
    | NoFrequency(line: string)   // `re.search(r'cluster_freq:(\d+\.\d+)', label)` is None

  /** What `get_cluster_stats` returns; the frequency is kept as the matched text. */
  datatype ClusterStats = ClusterStats(name: string, sequence: string, readCount: nat, frequency: string)

  /** One item yielded by `get_clusters`: the stats and the file the record came from. */
  datatype Cluster = Cluster(stats: ClusterStats, passedFilters: bool)

  /** `label, seq = data.split('\n', 1)`: the text before the first line break and the rest. */
  function SplitLabel(data: string): (r: Option<(string, string)>)
    ensures r.None? <==> '\n' !in data
    ensures r.Some? ==> data == r.value.0 + "\n" + r.value.1 && '\n' !in r.value.0
  {
    if '\n' !in data then None
    else
      var i := IndexOf(data, '\n');
      assert data == data[..i] + "\n" + data[i + 1..];
      Some((data[..i], data[i + 1..]))
  }

  /**
   * `get_cluster_stats` once the record is split: the read count and the
   * cluster name are the digit runs after the first `ReadCount-` and the first
   * `cluster-` that are followed by a digit; the frequency must be present;
   * the sequence is the rest of the record with outer whitespace stripped.
   */
  function ParseLabel(lbl: string, body: string): (r: Result<ClusterStats, ParseError>)
    ensures r.Success? ==> r.value.name != [] && AllDigits(r.value.name)
    ensures r.Success? && r.value.sequence != [] ==> !IsSpace(r.value.sequence[0]) && !IsSpace(r.value.sequence[|r.value.sequence| - 1])
    ensures r.Success? ==> r.value.sequence == Strip(body)
  {
    match Search(lbl, "ReadCount-", Integer)
    case None => Failure(NoReadCount(lbl))
    case Some(count) =>
      match Search(lbl, "cluster-", Integer)
      case None => Failure(NoClusterName(lbl))
      case Some(name) =>
        match Search(lbl, "cluster_freq:", Decimal)
        case None => Failure(NoFrequency(lbl))
        case Some(frequency) => Success(ClusterStats(name, Strip(body), DigitsValue(count), frequency))
  }

  /** `get_cluster_stats(data)`: the label is the first line, the sequence the rest. */
  function ParseClusterStats(data: string): (r: Result<ClusterStats, ParseError>)
    ensures '\n' !in data ==> r == Failure(NoLineBreak(data))
  {
    match SplitLabel(data)
    case None => Failure(NoLineBreak(data))
    case Some((lbl, body)) => ParseLabel(lbl, body)
  }

  /** A label parses exactly when it holds all three tags, each followed by its number. */
  lemma LabelParses(lbl: string, body: string)
    ensures ParseLabel(lbl, body).Success? <==>
      (exists j :: MatchAt(lbl, "ReadCount-", Integer, j)) && (exists j :: MatchAt(lbl, "cluster-", Integer, j))
      && (exists j :: MatchAt(lbl, "cluster_freq:", Decimal, j))
  {
    SearchFails(lbl, "ReadCount-", Integer);
    SearchFails(lbl, "cluster-", Integer);
    SearchFails(lbl, "cluster_freq:", Decimal);
  }

  /**
   * A record parses exactly when it has a line break and its first line holds
   * all three tags, each followed by its number.
   */
  lemma ParseSucceeds(data: string)
    ensures var i := if '\n' in data then IndexOf(data, '\n') else 0;
      var lbl := data[..i];
      ParseClusterStats(data).Success? <==>
        ('\n' in data && (exists j :: MatchAt(lbl, "ReadCount-", Integer, j))
         && (exists j :: MatchAt(lbl, "cluster-", Integer, j)) && (exists j :: MatchAt(lbl, "cluster_freq:", Decimal, j)))
  {
    if '\n' in data {
      var i := IndexOf(data, '\n');
      LabelParses(data[..i], data[i + 1..]);
    }
  }

  /** The start of a label: the cluster number, the read count and a space. */
  function LabelFront(name: string, readCount: nat): string
  {
    "cluster-" + name + "_ReadCount-" + NatToString(readCount) + " "
  }

  /**
   * A label of the shape `cluster-<n>_ReadCount-<m> <extra>cluster_freq:<w>.<f><tail>`,
   * where `extra` stands for further fields (such as `uchime_score:`) and
   * `tail` for whatever follows the frequency.
   */
  function RecordLabel(name: string, readCount: nat, extra: string, whole: string, fraction: string, tail: string): string
  {
    LabelFront(name, readCount) + extra + "cluster_freq:" + whole + "." + fraction + tail
  }

  /** A label of that shape is a single line when its free parts are. */
  lemma LabelHasNoLineBreak(name: string, readCount: nat, extra: string, whole: string, fraction: string, tail: string)
    requires AllDigits(name) && AllDigits(whole) && AllDigits(fraction)
    requires '\n' !in extra && '\n' !in tail
    ensures '\n' !in RecordLabel(name, readCount, extra, whole, fraction, tail)
  {
    var count := NatToString(readCount);
    assert '\n' !in name && '\n' !in count && '\n' !in whole && '\n' !in fraction;
  }

  /** The first `cluster-` of a label is the one in front, so the cluster name is found. */
  lemma SearchLabelName(name: string, readCount: nat, extra: string, whole: string, fraction: string, tail: string)
    requires name != [] && AllDigits(name)
    ensures Search(RecordLabel(name, readCount, extra, whole, fraction, tail), "cluster-", Integer) == Some(name)
  {
    var lbl := RecordLabel(name, readCount, extra, whole, fraction, tail);
    var rest := "_ReadCount-" + NatToString(readCount) + " " + extra + "cluster_freq:" + whole + "." + fraction + tail;
    assert lbl == "cluster-" + name + rest;
    assert lbl[8..8 + |name|] == name;
    assert lbl[8 + |name|] == '_';
    SearchInteger(lbl, "cluster-", 0, |name|);
  }

  /** Where `ReadCount-` and the count sit in a label, with no `R` in front of them. */
  lemma CountPieces(lbl: string, name: string, count: string, rest: string, tag: string, i: nat)
    requires AllDigits(name) && count != [] && AllDigits(count)
    requires lbl == "cluster-" + name + "_ReadCount-" + count + " " + rest
    requires tag == "ReadCount-" && i == |name| + 9
    ensures tag != [] && |count| > 0 && i + |tag| + |count| <= |lbl|
    ensures lbl[i..i + |tag|] == tag
    ensures AllDigits(lbl[i + |tag|..i + |tag| + |count|]) && lbl[i + |tag|..i + |tag| + |count|] == count
    ensures i + |tag| + |count| < |lbl| ==> !IsDigit(lbl[i + |tag| + |count|])
    ensures forall j :: 0 <= j < i ==> lbl[j] != tag[0]
  {
    var front := "cluster-" + name + "_";
    assert lbl == front + (tag + count + " " + rest);
    assert lbl[i + |tag| + |count|] == ' ';
    assert 'R' !in front;
    assert forall j :: 0 <= j < |front| ==> lbl[j] == front[j];
  }

  /** No `R` precedes `ReadCount-` in a label, so the read count is found. */
  lemma SearchLabelCount(name: string, readCount: nat, extra: string, whole: string, fraction: string, tail: string)
    requires AllDigits(name)
    ensures Search(RecordLabel(name, readCount, extra, whole, fraction, tail), "ReadCount-", Integer) == Some(NatToString(readCount))
  {
    var lbl := RecordLabel(name, readCount, extra, whole, fraction, tail);
    var count := NatToString(readCount);
    var rest := extra + "cluster_freq:" + whole + "." + fraction + tail;
    assert lbl == "cluster-" + name + "_ReadCount-" + count + " " + rest;
    CountPieces(lbl, name, count, rest, "ReadCount-", |name| + 9);
    SearchIntegerExact(lbl, "ReadCount-", |name| + 9, count);
  }

  /** What follows the front of a label: `extra`, the tag, the whole part, a dot, the fraction and the tail. */
  lemma FrequencyPieces(name: string, readCount: nat, extra: string, whole: string, fraction: string, tail: string)
    ensures var lbl := RecordLabel(name, readCount, extra, whole, fraction, tail);
      var f := |LabelFront(name, readCount)|;
      var i := f + |extra|;
      var e := i + 13 + |whole| + 1 + |fraction|;
      && |lbl| == e + |tail|
      && lbl[f..i] == extra
      && lbl[i..i + 13] == "cluster_freq:"
      && lbl[i + 13..i + 13 + |whole|] == whole
      && lbl[i + 13 + |whole|] == '.'
      && lbl[i + 13 + |whole| + 1..e] == fraction
      && lbl[i + 13..e] == whole + "." + fraction
      && (tail != [] ==> lbl[e] == tail[0])
  {
    var lbl := RecordLabel(name, readCount, extra, whole, fraction, tail);
    var front := LabelFront(name, readCount);
    var number := whole + "." + fraction;
    assert lbl == front + extra + ("cluster_freq:" + number) + tail;
    assert number[|whole|] == '.';
  }

  /** In front of `extra` the frequency pattern cannot match: a `-` at index 7, no `c` after index 0. */
  lemma FrequencyFront(name: string, readCount: nat, extra: string, whole: string, fraction: string, tail: string)
    requires AllDigits(name)
    ensures var lbl := RecordLabel(name, readCount, extra, whole, fraction, tail);
      && !MatchAt(lbl, "cluster_freq:", Decimal, 0)
      && forall j :: 1 <= j < |LabelFront(name, readCount)| ==> lbl[j] != 'c'
  {
    var lbl := RecordLabel(name, readCount, extra, whole, fraction, tail);
    var front := LabelFront(name, readCount);
    assert lbl == front + (extra + "cluster_freq:" + whole + "." + fraction + tail);
    assert lbl[7] == '-';
    if 13 <= |lbl| {
      assert lbl[..13][7] == '-';
    }
    assert 'c' !in front[1..];
    assert forall j :: 1 <= j < |front| ==> lbl[j] == front[1..][j - 1];
  }

  /** `extra` holds no `cluster_freq:`, and the fraction is followed by a non-digit or the end. */
  predicate FrequencyDelimited(extra: string, tail: string)
  {
    && (forall j :: 0 <= j < |extra| ==> !OccursAt(extra, "cluster_freq:", j))
    && (tail != [] ==> !IsDigit(tail[0]))
  }

  /**
   * The first `cluster_freq:` followed by a decimal number is the one after
   * `extra`, so the frequency is found.
   */
  lemma SearchLabelFrequency(name: string, readCount: nat, extra: string, whole: string, fraction: string, tail: string)
    requires AllDigits(name)
    requires whole != [] && AllDigits(whole) && fraction != [] && AllDigits(fraction)
    requires FrequencyDelimited(extra, tail)
    ensures Search(RecordLabel(name, readCount, extra, whole, fraction, tail), "cluster_freq:", Decimal) == Some(whole + "." + fraction)
  {
    var lbl := RecordLabel(name, readCount, extra, whole, fraction, tail);
    var tag := "cluster_freq:";
    var f := |LabelFront(name, readCount)|;
    var i := f + |extra|;
    FrequencyPieces(name, readCount, extra, whole, fraction, tail);
    FrequencyFront(name, readCount, extra, whole, fraction, tail);
    NoMatchBetween(lbl, tag, Decimal, 1, f);
    assert tag[0] !in tag[1..];
    NoMatchInGap(lbl, tag, Decimal, f, extra);
    assert forall j :: 0 <= j < i ==> !MatchAt(lbl, tag, Decimal, j);
    SearchDecimal(lbl, tag, i, |whole|, |fraction|);
  }

  /**
   * Parsing a record of that shape gives back the fields written into it;
   * the sequence may span several lines and be followed by whitespace, such
   * as the line break in front of the next record.
   */
  lemma ParseRecord(name: string, readCount: nat, extra: string, whole: string, fraction: string, tail: string,
                    sequence: string, padding: string)
    requires name != [] && AllDigits(name)
    requires whole != [] && AllDigits(whole) && fraction != [] && AllDigits(fraction)
    requires '\n' !in extra && '\n' !in tail && FrequencyDelimited(extra, tail)
    requires sequence != [] ==> !IsSpace(sequence[0]) && !IsSpace(sequence[|sequence| - 1])
    requires AllSpace(padding)
    ensures ParseClusterStats(RecordLabel(name, readCount, extra, whole, fraction, tail) + "\n" + sequence + padding)
         == Success(ClusterStats(name, sequence, readCount, whole + "." + fraction))
  {
    var lbl := RecordLabel(name, readCount, extra, whole, fraction, tail);
    LabelHasNoLineBreak(name, readCount, extra, whole, fraction, tail);
    SplitLabelAt(lbl, sequence + padding);
    assert lbl + "\n" + sequence + padding == lbl + "\n" + (sequence + padding);
    SearchLabelName(name, readCount, extra, whole, fraction, tail);
    SearchLabelCount(name, readCount, extra, whole, fraction, tail);
    SearchLabelFrequency(name, readCount, extra, whole, fraction, tail);
    StripPadded(sequence, padding);
  }

  /** A one-line label, a line break and a body split back into the label and the body. */
  lemma SplitLabelAt(lbl: string, body: string)
    requires '\n' !in lbl
    ensures SplitLabel(lbl + "\n" + body) == Some((lbl, body))
  {
    var data := lbl + "\n" + body;
    assert data[..|lbl|] == lbl;
    IndexOfAt(data, '\n', |lbl|);
    assert data[|lbl| + 1..] == body;
  }

  // -----------------------------------------------------------------------
  // get_clusters

  /** `text.split('>')[1:]`: the records of a file; text before the first `>` is dropped. */
  function SplitRecords(text: string): (chunks: seq<string>)
    ensures |chunks| == Count(text, '>')
  {
    Split(text, '>')[1..]
  }

  /** The text of a file whose records are `chunks`, each written after a `>`. */
  function RecordsText(chunks: seq<string>): string
  {
    if chunks == [] then [] else ">" + chunks[0] + RecordsText(chunks[1..])
  }

  lemma {:induction false} RecordsTextJoin(preamble: string, chunks: seq<string>)
    ensures preamble + RecordsText(chunks) == Join([preamble] + chunks, '>')
    decreases |chunks|
  {
    if chunks != [] {
      RecordsTextJoin(chunks[0], chunks[1..]);
      assert ([preamble] + chunks)[1..] == [chunks[0]] + chunks[1..];
    }
  }

  /** Splitting a file gives back its records in order, whatever precedes the first `>`. */
  lemma RecordsOfText(preamble: string, chunks: seq<string>)
    requires '>' !in preamble
    requires forall k :: 0 <= k < |chunks| ==> '>' !in chunks[k]
    ensures SplitRecords(preamble + RecordsText(chunks)) == chunks
  {
    var parts := [preamble] + chunks;
    RecordsTextJoin(preamble, chunks);
    assert forall k :: 0 < k < |parts| ==> parts[k] == chunks[k - 1];
    SplitJoin(parts, '>');
    assert parts[1..] == chunks;
  }

  /** `get_cluster_stats` applied to every record of a file. */
  function ParseEach(chunks: seq<string>): (results: seq<Result<ClusterStats, ParseError>>)
    ensures |results| == |chunks|
    ensures forall k :: 0 <= k < |chunks| ==> results[k] == ParseClusterStats(chunks[k])
  {
    seq(|chunks|, k requires 0 <= k < |chunks| => ParseClusterStats(chunks[k]))
  }

  /**
   * Consuming the parsed records of one file in order, each tagged with the
   * file's filter flag: all of them when every record parses, otherwise the
   * error of the first record that does not.
   */
  function Collect(results: seq<Result<ClusterStats, ParseError>>, passedFilters: bool): Result<seq<Cluster>, ParseError>
  {
    if results == [] then Success([])
    else
      var init := results[..|results| - 1];
      match Collect(init, passedFilters)
      case Failure(e) => Failure(e)
      case Success(clusters) =>
        match results[|results| - 1]
        case Failure(e) => Failure(e)
        case Success(stats) => Success(clusters + [Cluster(stats, passedFilters)])
  }

  /** All records are kept, in order, when all of them parse; none otherwise. */
  lemma {:induction false} CollectSuccess(results: seq<Result<ClusterStats, ParseError>>, passedFilters: bool)
    ensures Collect(results, passedFilters).Success? <==> forall k :: 0 <= k < |results| ==> results[k].Success?
    ensures Collect(results, passedFilters).Success? ==> |Collect(results, passedFilters).value| == |results|
    ensures Collect(results, passedFilters).Success? ==> forall k :: 0 <= k < |results| ==>
      results[k] == Success(Collect(results, passedFilters).value[k].stats)
      && Collect(results, passedFilters).value[k].passedFilters == passedFilters
  {
    if results != [] {
      var init := results[..|results| - 1];
      CollectSuccess(init, passedFilters);
      assert forall k :: 0 <= k < |init| ==> results[k] == init[k];
    }
  }

  /** On failure, the error is that of the first record that does not parse. */
  lemma {:induction false} CollectFailure(results: seq<Result<ClusterStats, ParseError>>, passedFilters: bool)
    requires Collect(results, passedFilters).Failure?
    ensures exists k :: (0 <= k < |results| && results[k] == Failure(Collect(results, passedFilters).error)
      && forall j :: 0 <= j < k ==> results[j].Success?)
  {
    var n := |results| - 1;
    var init := results[..n];
    assert forall j :: 0 <= j < n ==> results[j] == init[j];
    if Collect(init, passedFilters).Failure? {
      CollectFailure(init, passedFilters);
      var k :| 0 <= k < n && init[k] == Failure(Collect(init, passedFilters).error)
        && (forall j :: 0 <= j < k ==> init[j].Success?);
    } else {
      CollectSuccess(init, passedFilters);
    }
  }

  lemma {:induction false} FailureSticks(results: seq<Result<ClusterStats, ParseError>>, n: nat, passedFilters: bool)
    requires n <= |results| && Collect(results[..n], passedFilters).Failure?
    ensures Collect(results, passedFilters) == Collect(results[..n], passedFilters)
    decreases |results| - n
  {
    if n < |results| {
      assert results[..n + 1][..n] == results[..n];
      FailureSticks(results, n + 1, passedFilters);
    } else {
      assert results[..n] == results;
    }
  }

  /** Consuming record `i` after a successful prefix either ends the file with its error or extends the prefix. */
  lemma CollectStep(results: seq<Result<ClusterStats, ParseError>>, i: nat, passedFilters: bool, clusters: seq<Cluster>)
    requires i < |results| && Collect(results[..i], passedFilters) == Success(clusters)
    ensures results[i].Failure? ==> Collect(results, passedFilters) == Failure(results[i].error)
    ensures results[i].Success? ==>
      Collect(results[..i + 1], passedFilters) == Success(clusters + [Cluster(results[i].value, passedFilters)])
  {
    assert results[..i + 1][..i] == results[..i];
    if results[i].Failure? {
      FailureSticks(results, i + 1, passedFilters);
    }
  }

  /** The records of one file as `get_clusters` yields them. */
  function FileClusters(text: string, passedFilters: bool): Result<seq<Cluster>, ParseError>
  {
    Collect(ParseEach(SplitRecords(text)), passedFilters)
  }

  /** One `with open(...)` block of `get_clusters`: every record of a file, in order. */
  method ParseFile(text: string, passedFilters: bool) returns (r: Result<seq<Cluster>, ParseError>)
    ensures r == FileClusters(text, passedFilters)
  {
    var chunks := SplitRecords(text);
    ghost var results := ParseEach(chunks);
    var clusters := [];
    for i := 0 to |chunks|
      invariant Collect(results[..i], passedFilters) == Success(clusters)
    {
      var stats := ParseClusterStats(chunks[i]);
      assert stats == results[i];
      CollectStep(results, i, passedFilters, clusters);
      if stats.Failure? {
        return Failure(stats.error);
      }
      clusters := clusters + [Cluster(stats.value, passedFilters)];
    }
    assert results[..|chunks|] == results;
    r := Success(clusters);
  }

  /** Everything `get_clusters` yields: all passed-file records, then all failed-file records. */
  function ClustersOf(passedText: string, failedText: string): (r: Result<seq<Cluster>, ParseError>)
    ensures r.Success? ==> |r.value| == Count(passedText, '>') + Count(failedText, '>')
    ensures r.Success? ==> forall k :: 0 <= k < |r.value| ==> (r.value[k].passedFilters <==> k < Count(passedText, '>'))
    ensures r.Success? <==> FileClusters(passedText, true).Success? && FileClusters(failedText, false).Success?
  {
    CollectSuccess(ParseEach(SplitRecords(passedText)), true);
    CollectSuccess(ParseEach(SplitRecords(failedText)), false);
    match FileClusters(passedText, true)
    case Failure(e) => Failure(e)
    case Success(passed) =>
      match FileClusters(failedText, false)
      case Failure(e) => Failure(e)
      case Success(failed) => Success(passed + failed)
  }

  /** `get_clusters(sample)` with the two files' contents given as text. */
  method GetClusters(passedText: string, failedText: string) returns (r: Result<seq<Cluster>, ParseError>)
    ensures r == ClustersOf(passedText, failedText)
  {
    var passed := ParseFile(passedText, true);
    if passed.Failure? {
      return Failure(passed.error);
    }
    var failed := ParseFile(failedText, false);
    if failed.Failure? {
      return Failure(failed.error);
    }
    r := Success(passed.value + failed.value);
  }
}
