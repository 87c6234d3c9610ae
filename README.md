# Haplotype counting for amplicon clusters

This project models `workflow/scripts/count.py`. The script takes the clusters that
an amplicon-clustering step wrote for each sample and gives each cluster a
two-SNP haplotype call. It then tallies read counts per sample and writes two
CSV tables.

The model has seven modules, one file each:

- `wrappers.dfy` (`Wrappers`): `Option` and `Result`.
- `text.dfy` (`Text`): the Python string operations the script relies on.
  - `str.strip` with Python's whitespace set.
  - `str.split`, `sep.join` and `''.join`.
  - `str.lower` on ASCII letters.
  - `str(int)` and `int(str)`.
  - `re.search` for the patterns `TAG(\d+)` and `TAG(\d+\.\d+)`, leftmost match first.
- `records.dfy` (`Records`): `get_cluster_stats` and `get_clusters`.
  - Records are split on `>`; text before the first `>` is dropped.
  - The label is the first line. It must hold `ReadCount-<digits>`, `cluster-<digits>` and `cluster_freq:<digits>.<digits>`.
  - The sequence is the rest of the record, stripped.
  - The passed file's records come first, flagged `True`, then the failed file's records, flagged `False`.
  - `GetClusters` models the generator on its own. The counting loop takes the same records through `Tally.Source` and `Tally.ProcessAll`, which parse and call each record in turn. `Tally.ProcessedClusters` proves that both give the same clusters, in the same order, whenever the sample is processed.
- `reference.dfy` (`Reference`): `REF_SEQ`. The guide file is read with `readlines`. Every line after the first is stripped, and the lines are joined with nothing between them.
- `haplotyping.dfy` (`Haplotyping`): `_get_alignment` and `_get_haplotype`.
  - The aligner and the reverse complement are function-valued parameters (`Tools`).
  - The forward alignment is kept unless the reverse-complement alignment scores strictly higher.
  - The sequence `NNNNNNNNNN` gets no call.
  - Otherwise the call is the query row's symbols at `SNP_1` and `SNP_2`, lower-cased. Python's negative indices are honoured, and an index out of range is an error.
- `tally.dfy` (`Tally`): the loops of `main`.
  - `TallySample` is the inner loop over one sample's clusters. It updates `ht_counts`, `failed_filters`, `failed_haplotyping` and the cluster rows.
  - `Run` is the outer loop over the samples. It builds one counts row per sample.
  - Both methods are proved equal to fold functions (`SampleOf`, `RunOf`).
  - The bucket properties are proved about `TallyOf`, the fold inside `SampleOf`. `RunCountRows` carries them to every row of a successful run.
- `report.dfy` (`Report`): `write_clusters`, `write_counts` and the end of `main`.
  - Each table is a header line, then one comma-joined line per row.
  - A written counts line reads back as the row it came from.

Any failure stops the whole run: an unparsable record, or a SNP column outside the alignment. In the script that is an uncaught exception. The model returns it as `Failure`, and no file is produced.

Behaviour worth noting:

- **Empty reference.** An empty guide file, or one with only a header, gives an empty reference.
- **Clusters with no call.** A cluster with no call is not dropped from the clusters table. `main` stores `str(haplotype)`, so the call is written as the text `None`. The `None in row` test in `write_clusters` can therefore never skip a row that `main` builds (`Report.TallyRowsAllKept`).
- **SNP positions.** They are not validated in advance. A negative position counts from the end of the query row, as Python indexing does, and a position past either end is an error for that cluster.
- **Failed-filter reads.** The reads of a cluster from the failed file count in `failed_filters`. They also count in a haplotype bucket or in `failed_haplotyping`, so `failed_filters` overlaps the other buckets.
- **`failed_qc`.** It is `total_reads - passed_qc` and is not clamped at zero, so it can be negative.

## Model

| member | source | states |
|---|---|---|
| Text.NatToString | workflow/scripts/count.py:94 | `str(n)` of a count is a non-empty run of decimal digits with no leading zero whose value is `n` |
| Text.IntToString | workflow/scripts/count.py:94 | `str(i)` is non-empty and starts with a minus sign exactly when `i` is negative; the rest is the decimal form of the magnitude |
| Text.IntToStringRoundTrip | workflow/scripts/count.py:94 | `int(str(i)) == i` for every integer, negative `failed_qc` included, and `str(i)` holds no comma or line break |
| Text.Strip | workflow/scripts/count.py:29 | the stripped text neither starts nor ends with whitespace |
| Text.StripSlice | workflow/scripts/count.py:29 | the stripped text is a slice of the input with only whitespace before it and after it |
| Text.StripPadded | workflow/scripts/count.py:29 | text without outer whitespace, followed by any whitespace, strips back to itself |
| Text.StripKeepsOut | workflow/scripts/count.py:60 | stripping removes only whitespace at the ends: a line break that occurs only at the end of a line is gone afterwards |
| Text.Lower | workflow/scripts/count.py:74 | `lower()` keeps the length, maps each capital letter to its small letter, leaves every other character alone, and leaves no capital |
| Text.IndexOf | workflow/scripts/count.py:24 | the index found holds the character and no earlier index does |
| Text.Split | workflow/scripts/count.py:24 | `split(sep)` gives one more piece than there are separators, no piece holds the separator, and joining the pieces gives the text back |
| Text.SplitJoin | workflow/scripts/count.py:35 | splitting a join gives back the parts when no part holds the separator |
| Text.JoinAvoids | workflow/scripts/count.py:85 | a character in no field and other than the separator is absent from the joined line |
| Text.ConcatAvoids | workflow/scripts/count.py:60 | a character in no part is absent from `''.join(parts)` |
| Text.CountSplit | workflow/scripts/count.py:85 | the number of occurrences of a character in a concatenation is the sum over the two halves |
| Text.FindFromNone | workflow/scripts/count.py:25-27 | the scan finds nothing exactly when the pattern matches at no index from the start point on |
| Text.FindFromFirst | workflow/scripts/count.py:25-27 | the scan returns the leftmost match, as `re.search` does |
| Text.Search | workflow/scripts/count.py:25-26 | a `(\d+)` capture is a non-empty run of digits |
| Text.SearchFails | workflow/scripts/count.py:25-27 | `re.search` returns `None` exactly when the pattern matches nowhere in the label |
| Text.SearchAt | workflow/scripts/count.py:25-27 | when the first match is at `i`, the capture is the group's text at `i` |
| Text.DigitRunSpec | workflow/scripts/count.py:25-26 | `\d+` is greedy: the captured run is all digits and is followed by a non-digit or the end |
| Text.SearchInteger | workflow/scripts/count.py:25-26 | a tag followed by digits, with the tag's first letter nowhere earlier, is found with exactly those digits as the capture |
| Text.SearchDecimal | workflow/scripts/count.py:27 | a `cluster_freq:` tag followed by digits, a dot and digits up to the end, with no earlier match, is found with that number as the capture |
| Records.SplitLabel | workflow/scripts/count.py:24 | `split('\n', 1)` fails to give two values exactly when there is no line break; otherwise the label is the text before the first line break and the body is everything after it |
| Records.ParseLabel | workflow/scripts/count.py:25-29 | a parsed cluster name is a non-empty run of digits, and the sequence is the body stripped |
| Records.ParseClusterStats | workflow/scripts/count.py:23-24 | a record with no line break fails with that error |
| Records.LabelParses | workflow/scripts/count.py:25-27 | a label parses exactly when each of the three tags is followed by its number somewhere in it |
| Records.ParseSucceeds | workflow/scripts/count.py:23-29 | a record parses exactly when it has a line break and its first line holds all three tagged numbers |
| Records.LabelHasNoLineBreak | workflow/scripts/count.py:24 | a label of the shape `cluster-<n>_ReadCount-<m> <extra>cluster_freq:<w>.<f><tail>` is a single line when `extra` and `tail` are |
| Records.SearchLabelName | workflow/scripts/count.py:26 | in a label of that shape, `cluster-(\d+)` captures the cluster number |
| Records.SearchLabelCount | workflow/scripts/count.py:25 | in a label of that shape, `ReadCount-(\d+)` captures the read count |
| Records.SearchLabelFrequency | workflow/scripts/count.py:27 | in a label of that shape whose `extra` holds no `cluster_freq:` and whose `tail` does not start with a digit, `cluster_freq:(\d+\.\d+)` captures the frequency |
| Records.ParseRecord | workflow/scripts/count.py:23-29 | parsing such a label, a line break, a sequence without outer whitespace and any trailing whitespace gives back the cluster number, the sequence, the read count and the frequency |
| Records.SplitRecords | workflow/scripts/count.py:35 | `split('>')[1:]` gives one record per `>` in the file |
| Records.RecordsOfText | workflow/scripts/count.py:35 | splitting a file gives its records back in order, whatever precedes the first `>` |
| Records.ParseEach | workflow/scripts/count.py:36 | each record is parsed on its own, in order |
| Records.CollectSuccess | workflow/scripts/count.py:35-36 | a file's records are all yielded, in order and flagged with the file's flag, exactly when every record parses |
| Records.CollectFailure | workflow/scripts/count.py:35-36 | when a file fails, the error is that of its first record that does not parse |
| Records.CollectStep | workflow/scripts/count.py:35-36 | after a successful prefix, a record that does not parse ends the file with its error, and one that parses is appended with the file's flag |
| Records.ParseFile | workflow/scripts/count.py:33-36 | the loop over one file's records yields what the fold over them gives |
| Records.ClustersOf | workflow/scripts/count.py:31-41 | the records come one per `>` of both files, passed-file records first and flagged `True`, failed-file records after and flagged `False`; this succeeds exactly when both files parse |
| Records.GetClusters | workflow/scripts/count.py:31-41 | the generator yields the passed file's records, then the failed file's |
| Reference.ReadLinesCons | workflow/scripts/count.py:59 | `readlines` reads a line and its line break as one line |
| Reference.ReadLines | workflow/scripts/count.py:59 | `readlines` gives no line exactly for an empty file, and never an empty line |
| Reference.ReadLinesConcat | workflow/scripts/count.py:59 | the lines `readlines` gives concatenate back to the file's text |
| Reference.ReadLinesShape | workflow/scripts/count.py:59 | no line is empty; a line break only ends a line; every line but the last ends with one |
| Reference.StripAll | workflow/scripts/count.py:60 | each line is stripped on its own, in order |
| Reference.ReferenceSequence | workflow/scripts/count.py:58-60 | the reference holds no line break: every line loses its own when stripped |
| Reference.HeaderIgnored | workflow/scripts/count.py:58-60 | the header line never contributes to the reference |
| Reference.ReadLinesText | workflow/scripts/count.py:59 | lines written with line breaks are read back as themselves with their line breaks |
| Reference.ConcatStripped | workflow/scripts/count.py:60 | sequence lines without outer whitespace, each read with its line break, strip and join back to the lines joined |
| Reference.ReferenceOfFasta | workflow/scripts/count.py:58-60 | the reference of a FASTA file is its sequence lines concatenated in order |
| Haplotyping.Orient | workflow/scripts/count.py:65-67 | the forward alignment is kept unless the reverse one scores strictly higher; a tie keeps forward; the kept score is the maximum |
| Haplotyping.OrientSymmetric | workflow/scripts/count.py:65-67 | unless the scores tie, the choice does not depend on which alignment is forward |
| Haplotyping.GetAlignment | workflow/scripts/count.py:62-67 | the result is the forward or the reverse-complement alignment and scores at least as high as both; when the forward one scores at least as high, it is the forward one |
| Haplotyping.PyIndex | workflow/scripts/count.py:73 | Python indexing: a value exactly for indices from `-len` to `len-1`; negative indices count from the end |
| Haplotyping.Haplotype | workflow/scripts/count.py:69-75 | there is no call exactly for `NNNNNNNNNN`; any call is two characters with no capital letter |
| Haplotyping.HaplotypeCalled | workflow/scripts/count.py:72-75 | for any other sequence there is a call exactly when both SNP columns lie in the chosen query row; the call is the lower-cased symbol at `SNP_1` then the one at `SNP_2` |
| Haplotyping.HaplotypeStrandIndependent | workflow/scripts/count.py:62-75 | a sequence and its reverse complement get the same call when the two orientations do not tie |
| Tally.Source | workflow/scripts/count.py:31-41 | there is one item per record; the passed file's records come first, flagged `True`, then the failed file's, flagged `False` |
| Tally.Process | workflow/scripts/count.py:106-109 | a record that does not parse fails with its parse error; a record succeeds exactly when it parses and its sequence is called, and then carries the parsed cluster, its file's flag and the call |
| Tally.Outcomes | workflow/scripts/count.py:106-109 | each record is parsed and called on its own, in order |
| Tally.GatherSuccess | workflow/scripts/count.py:106-109 | all records are kept, in order, exactly when each one is parsed and called |
| Tally.GatherFailure | workflow/scripts/count.py:106-109 | when the run stops, it stops with the error of the first record that fails |
| Tally.ProcessAllOutcome | workflow/scripts/count.py:106-109 | a sample is processed exactly when every record parses and is called; then there is one result per record, in order; otherwise the error is that of the first record that fails |
| Tally.ProcessStep | workflow/scripts/count.py:106-109 | after a successful prefix, a record that fails ends the sample with its error, and one that succeeds is appended |
| Tally.ProcessedRecords | workflow/scripts/count.py:106 | every record of a processed sample parsed to the cluster at the same place |
| Tally.CollectClusters | workflow/scripts/count.py:35-36 | records that all parsed are collected as exactly the parsed clusters, in order |
| Tally.ParsedPassed | workflow/scripts/count.py:33-36 | the passed file's records, parsed as the front of the processed records, are collected as those clusters |
| Tally.ParsedFailed | workflow/scripts/count.py:38-41 | the failed file's records, parsed as the rest of the processed records, are collected as those clusters |
| Tally.ParsedClusters | workflow/scripts/count.py:31-41 | records that all parsed to `ps` make `get_clusters` yield exactly the clusters of `ps` |
| Tally.ProcessedClusters | workflow/scripts/count.py:31-41 | when a sample is processed, the clusters tallied are exactly those `get_clusters` yields, in the same order and with the same flags |
| Tally.InitialTally | workflow/scripts/count.py:103-105 | `ht_counts` starts with a zero bucket for each configured haplotype and no other key |
| Tally.Step | workflow/scripts/count.py:106-114 | one cluster keeps a bucket for every configured haplotype |
| Tally.TallyOf | workflow/scripts/count.py:106-114 | every configured haplotype keeps a bucket throughout the loop |
| Tally.TallyOfSnoc | workflow/scripts/count.py:106-114 | the loop over one more cluster is the loop so far plus one step |
| Tally.SampleOf | workflow/scripts/count.py:103-114 | a sample is tallied exactly when all its records are processed, and fails with their error otherwise; its buckets are exactly the configured haplotypes |
| Tally.PyStr | workflow/scripts/count.py:114 | `str(haplotype)` is the call itself, or `None` for no call, so a two-character entry is always a call |
| Tally.TallyKeys | workflow/scripts/count.py:103-111 | the buckets are exactly the configured haplotypes; a call outside the list never gets a bucket |
| Tally.TallyCounts | workflow/scripts/count.py:110-111 | each configured haplotype's bucket holds the reads of exactly the clusters called as it |
| Tally.TallyFailedFilters | workflow/scripts/count.py:107-108 | `failed_filters` is the reads of the failed file's clusters, whatever their call |
| Tally.TallyFailedHaplotyping | workflow/scripts/count.py:112-113 | `failed_haplotyping` is the reads of the clusters with no call or an unlisted call |
| Tally.TallyRows | workflow/scripts/count.py:114 | the rows are exactly one per cluster, in order: the sample, the cluster name and `str` of the call |
| Tally.ClusterRowsOf | workflow/scripts/count.py:114 | one row per cluster, in order, each holding the sample, the cluster name and `str` of the call |
| Tally.ReadsSplit | workflow/scripts/count.py:110-113 | every read goes to exactly one of the listed-call and other-call groups |
| Tally.KnownReadsCons | workflow/scripts/count.py:110-111 | the reads with a listed call split over the first listed haplotype and the rest, when the first is not listed again |
| Tally.KnownReadsDup | workflow/scripts/count.py:110-111 | listing a haplotype again does not change the reads with a listed call |
| Tally.KnownReadsNone | workflow/scripts/count.py:110-111 | with no haplotype listed, no read has a listed call |
| Tally.BucketSumKnown | workflow/scripts/count.py:110-111 | the buckets, one per distinct listed haplotype, add up to the reads with a listed call |
| Tally.Conservation | workflow/scripts/count.py:103-113 | the sum of the buckets of `ht_counts` plus `failed_haplotyping` is the reads of all clusters, and `failed_filters` is at most that |
| Tally.FilteredAtMostAll | workflow/scripts/count.py:107-108 | the failed file's reads are at most all reads |
| Tally.CallsLowerCase | workflow/scripts/count.py:74 | every call made for a processed sample is in lower case |
| Tally.CapitalHaplotypeNeverCounted | workflow/scripts/count.py:110-111 | a configured haplotype with a capital letter never matches a call, so its bucket stays zero |
| Tally.CountCluster | workflow/scripts/count.py:107-114 | the loop body adds a cluster's reads to `failed_filters` when it failed filters, to its haplotype's bucket or else to `failed_haplotyping`, and appends its row |
| Tally.TallySample | workflow/scripts/count.py:103-114 | the inner loop over a sample's records gives the fold of the loop body over the processed records, or the first error |
| Tally.CountRowOf | workflow/scripts/count.py:115-116 | the counts row has one bucket per configured haplotype |
| Tally.CountRowColumns | workflow/scripts/count.py:100-116 | the row holds the sample name, `total_reads`, `total_reads - passed_qc` unclamped, the failed file's reads, the reads with no listed call, and each listed haplotype's reads in list order |
| Tally.SampleRuns | workflow/scripts/count.py:99-114 | each sample is tallied on its own |
| Tally.RunOf | workflow/scripts/count.py:96-117 | the run succeeds exactly when every sample does |
| Tally.AssembleOutcome | workflow/scripts/count.py:114-117 | the samples come together exactly when all succeed; then counts row `k` is the row built from sample `k`'s tally, and `cluster_rows` is the samples' cluster rows joined in order |
| Tally.AllClusters | workflow/scripts/count.py:106 | one list of processed clusters per sample, each the one that sample's records give |
| Tally.TableRows | workflow/scripts/count.py:114 | tallies that each hold their sample's cluster rows join into those rows, sample after sample |
| Tally.SampleRunRows | workflow/scripts/count.py:106-114 | a sample whose records are all processed is tallied, with one cluster row per cluster |
| Tally.RunCountRows | workflow/scripts/count.py:96-117 | the run succeeds exactly when every sample's records are processed; then counts row `k` belongs to sample `k` and each of its columns holds what its header names for that sample's clusters, and `cluster_rows` is every sample's cluster rows, sample after sample |
| Tally.AssemblePrefixFails | workflow/scripts/count.py:99-117 | a failure on an earlier sample ends the run for good |
| Tally.Run | workflow/scripts/count.py:96-117 | the outer loop over the samples builds `cluster_rows` and `rows` as the fold over the samples does, and stops at the first error |
| Report.CsvLineRoundTrip | workflow/scripts/count.py:85 | a written line ends with its only line break, and splitting it on commas gives the fields back when no field holds a comma or line break |
| Report.CsvLine | workflow/scripts/count.py:81-94 | a written line is the comma-joined fields followed by its line break |
| Report.Values | workflow/scripts/count.py:85 | a row with no `None` is written as its strings, one per field, in order |
| Report.ClustersCsv | workflow/scripts/count.py:80-85 | the clusters table starts with its header line |
| Report.WriteClusters | workflow/scripts/count.py:77-85 | the clusters table is the header, then one line per row, skipping rows that hold `None` |
| Report.ClustersCsvStep | workflow/scripts/count.py:82-85 | one more row adds its line, or nothing when it holds `None` |
| Report.ClustersCsvLineCount | workflow/scripts/count.py:80-85 | the clusters table has one line for the header and one for each row without `None` |
| Report.CsvLineBreaks | workflow/scripts/count.py:85 | a written row is exactly one line |
| Report.TallyRowsAllKept | workflow/scripts/count.py:83 | every row `main` builds is kept: the skip never fires |
| Report.NatStrings | workflow/scripts/count.py:94 | there is one string per count |
| Report.CountsHeader | workflow/scripts/count.py:90-91 | the header is the five fixed column names, then `haplotype_<h>_reads` for each configured haplotype, in order |
| Report.CountsCsv | workflow/scripts/count.py:90-94 | the counts table starts with its header line |
| Report.WriteCounts | workflow/scripts/count.py:87-94 | the counts table is the header, then one line per row, in order |
| Report.CountsCsvStep | workflow/scripts/count.py:93-94 | one more row adds its line |
| Report.ReadNatBack | workflow/scripts/count.py:94 | a count read back from its text is the count |
| Report.ReadNatsBack | workflow/scripts/count.py:94 | the haplotype columns read back as the bucket counts |
| Report.ReadCountFields | workflow/scripts/count.py:94 | the fields of a counts row read back as the row |
| Report.CountFieldsClean | workflow/scripts/count.py:94 | no field of a counts row holds a comma or line break when the sample name holds none |
| Report.NatStringsClean | workflow/scripts/count.py:94 | no count written holds a comma or line break |
| Report.CountLineRoundTrip | workflow/scripts/count.py:94 | a counts line reads back as the row it was written from |
| Report.RowFields | workflow/scripts/count.py:90-94 | a row whose columns hold what their headers name is written with each number under its header |
| Report.ColumnsAligned | workflow/scripts/count.py:90-94 | every counts line of a successful run has one field per header column, and under each header, `haplotype_<h>_reads` included, is the number it names for that sample's clusters |
| Report.ScriptOf | workflow/scripts/count.py:96-120 | the script writes its two tables exactly when the run succeeds, to two different paths, each table starting with its header line; otherwise it fails with the run's error |
| Report.CountHaplotypes | workflow/scripts/count.py:96-120 | the script writes `results/<gene>.clusters_by_haplotype.csv` and `results/<gene>.haplotype_counts.csv` with the two tables of a successful run, or nothing when the run fails |

## Left out

- Configuration loading through Snakemake or `config.yaml`, including its `FileNotFoundError` (workflow/scripts/count.py:6-21). This is environment I/O. The keys arrive as a `Config` value.
- Opening, reading and writing files (workflow/scripts/count.py:33, 38, 58, 79, 88). File contents are `string` parameters and results.
- The order `os.listdir` gives the samples in (workflow/scripts/count.py:99). It depends on the file system; the samples are a given sequence.
- Line counting in `get_num_input_reads` and `get_total_num_reads` (workflow/scripts/count.py:43-51). This is I/O; the two counts are fields of `SampleInput`.
- Biopython's `PairwiseAligner`: its local-alignment algorithm, its scoring settings and how `alignment[1, col]` picks a column (workflow/scripts/count.py:53-56, 63-64, 73). It is a foreign library. The model takes the best alignment's score and query row from a function parameter, and indexes that row.
- `Seq.reverse_complement` (workflow/scripts/count.py:64). It is a foreign library call, taken as a function parameter.
- Alignment scores are `real`: the rounding of floating-point scores is not modelled.
- `float(frequency)` (workflow/scripts/count.py:27, 29). Floating point is not modelled; the frequency is kept as the matched text, and the tag remains a required match.
- `possibly_chimeric` (workflow/scripts/count.py:28). It never reaches any output.
- Unicode: `\d` is matched as ASCII digits only, and `lower()` changes ASCII capitals only.
- Universal-newline translation when files are read in text mode. Line breaks are `\n` only.
- The exception type and traceback text printed on failure. A failure is a `RunError` value.
- The generator's laziness: the model parses and calls records strictly in order. A failure ends the run before anything is written, as the script does, because the tables are written only after every sample.
- Haplotyping.HaplotypeStrandIndependent: is stated only when reverse complementing twice gives the sequence back and the two orientations do not tie, because the aligner is abstract and a tie keeps the forward alignment.
- Records.ParseRecord: is stated for labels that begin `cluster-<n>_ReadCount-<m> `. A label with other text in front is covered only by `Records.LabelParses` and `Records.ParseSucceeds`, which hold for every label.
- Report.CountLineRoundTrip: is stated only for sample names without commas or line breaks, because the script writes fields unquoted.
