/**
 * Calling a cluster's haplotype: align the consensus sequence, and its
 * reverse complement, against the reference; keep the better alignment; read
 * the query's symbols at the two SNP columns and lower-case them
 * (workflow/scripts/count.py, `_get_alignment` and `_get_haplotype`).
 */
module Haplotyping {
  import opened Wrappers
  import opened Text

  /**
   * The parts of an alignment the script reads: its score and the query's
   * row of the alignment, gap symbols included (`alignment[1]`).
   */
  datatype Alignment = Alignment(score: real, queryRow: string)

  /**
   * The two library calls the script makes: the best local alignment of a
   * query against the reference, and the reverse complement of a sequence.
   */
  datatype Tools = Tools(align: (string, string) -> Alignment, reverseComplement: string -> string)

  /** Why a haplotype could not be read: a SNP column outside the query's row (`IndexError`). */
  datatype CallError = ColumnOutOfRange(column: int)

  /** The consensus sequence the clustering step writes for a cluster it could not resolve. */
  const NoCallSequence: string := "NNNNNNNNNN"

  /**
   * The orientation choice of `_get_alignment`: the reverse-complement
   * alignment replaces the forward one only when it scores strictly higher.
   */
  function Orient(forward: Alignment, reverse: Alignment): (r: Alignment)
    ensures r.score >= forward.score && r.score >= reverse.score
    ensures forward.score >= reverse.score ==> r == forward
    ensures reverse.score > forward.score ==> r == reverse
  {
    if forward.score < reverse.score then reverse else forward
  }

  /** Unless the scores tie, the order in which the two alignments are offered does not matter. */
  lemma OrientSymmetric(a: Alignment, b: Alignment)
    requires a.score != b.score
    ensures Orient(a, b) == Orient(b, a)
  {
  }

  /** `_get_alignment(query)`: the better of the forward and the reverse-complement alignment. */
  function GetAlignment(tools: Tools, reference: string, query: string): (r: Alignment)
    ensures r == tools.align(reference, query) || r == tools.align(reference, tools.reverseComplement(query))
    ensures r.score >= tools.align(reference, query).score
    ensures r.score >= tools.align(reference, tools.reverseComplement(query)).score
    ensures tools.align(reference, query).score >= tools.align(reference, tools.reverseComplement(query)).score ==>
      r == tools.align(reference, query)
  {
    Orient(tools.align(reference, query), tools.align(reference, tools.reverseComplement(query)))
  }

  /** Python's `s[i]`: negative indices count from the end; out of range is `None` here. */
  function PyIndex(s: string, i: int): (r: Option<char>)
    ensures r.Some? <==> -|s| <= i < |s|
    ensures 0 <= i < |s| ==> r == Some(s[i])
    ensures -|s| <= i < 0 ==> r == Some(s[|s| + i])
  {
    if 0 <= i < |s| then Some(s[i])
    else if -|s| <= i < 0 then Some(s[|s| + i])
    else None
  }

  /**
   * `_get_haplotype(seq)`: no call for the unresolved sequence; otherwise the
   * query's symbols at the two SNP columns of the chosen alignment, lower-cased.
   */
  function Haplotype(pos1: int, pos2: int, tools: Tools, reference: string, query: string): (r: Result<Option<string>, CallError>)
    ensures r == Success(None) <==> query == NoCallSequence
    ensures r.Success? && r.value.Some? ==> |r.value.value| == 2 && forall k :: 0 <= k < 2 ==> !IsUpper(r.value.value[k])
  {
    if query == NoCallSequence then Success(None)
    else
      var row := GetAlignment(tools, reference, query).queryRow;
      match PyIndex(row, pos1)
      case None => Failure(ColumnOutOfRange(pos1))
      case Some(snp1) =>
        match PyIndex(row, pos2)
        case None => Failure(ColumnOutOfRange(pos2))
        case Some(snp2) => Success(Some(Lower([snp1, snp2])))
  }

  /**
   * Any sequence but the unresolved one gets a call exactly when both SNP
   * columns lie inside the chosen alignment's query row, and the call is
   * those two symbols in lower case.
   */
  lemma HaplotypeCalled(pos1: int, pos2: int, tools: Tools, reference: string, query: string)
    requires query != NoCallSequence
    ensures var row := GetAlignment(tools, reference, query).queryRow;
      && (Haplotype(pos1, pos2, tools, reference, query).Success? <==> -|row| <= pos1 < |row| && -|row| <= pos2 < |row|)
      && (Haplotype(pos1, pos2, tools, reference, query).Success? ==>
            Haplotype(pos1, pos2, tools, reference, query)
            == Success(Some([LowerChar(PyIndex(row, pos1).value), LowerChar(PyIndex(row, pos2).value)])))
  {
    var row := GetAlignment(tools, reference, query).queryRow;
    if -|row| <= pos1 < |row| && -|row| <= pos2 < |row| {
      var snps := [PyIndex(row, pos1).value, PyIndex(row, pos2).value];
      assert Lower(snps) == [LowerChar(snps[0]), LowerChar(snps[1])];
    }
  }

  /**
   * Feeding the reverse complement of a sequence gives the same call as the
   * sequence itself, provided reverse complementing twice is the identity and
   * the two orientations do not tie.
   */
  lemma HaplotypeStrandIndependent(pos1: int, pos2: int, tools: Tools, reference: string, query: string)
    requires tools.reverseComplement(tools.reverseComplement(query)) == query
    requires tools.align(reference, query).score != tools.align(reference, tools.reverseComplement(query)).score
    requires query != NoCallSequence && tools.reverseComplement(query) != NoCallSequence
    ensures Haplotype(pos1, pos2, tools, reference, tools.reverseComplement(query))
         == Haplotype(pos1, pos2, tools, reference, query)
  {
    var rc := tools.reverseComplement(query);
    OrientSymmetric(tools.align(reference, query), tools.align(reference, rc));
    assert GetAlignment(tools, reference, rc) == GetAlignment(tools, reference, query);
  }
}
