/**
 * The reference sequence the clusters are aligned against: the guide FASTA
 * file read with `readlines()`, its first line (the header) dropped and the
 * remaining lines stripped and concatenated (workflow/scripts/count.py,
 * lines 58-60).
 */
module Reference {
  import opened Text

  /**
   * Python's `f.readlines()` on the text of a file: every line keeps its
   * line break; only the last line may lack one.
   */
  function ReadLines(text: string): (lines: seq<string>)
    ensures lines == [] <==> text == []
    ensures forall k :: 0 <= k < |lines| ==> lines[k] != []
    decreases |text|
  {
    if text == [] then []
    else if '\n' !in text then [text]
    else
      var i := IndexOf(text, '\n');
      [text[..i + 1]] + ReadLines(text[i + 1..])
  }

  /** A line with no line break in it, followed by a line break, is read as one line. */
  lemma ReadLinesCons(line: string, rest: string)
    requires '\n' !in line
    ensures ReadLines(line + "\n" + rest) == [line + "\n"] + ReadLines(rest)
  {
    var text := line + "\n" + rest;
    assert text[..|line|] == line;
    IndexOfAt(text, '\n', |line|);
    assert text[..|line| + 1] == line + "\n";
    assert text[|line| + 1..] == rest;
  }

  /** The lines concatenate back to the text. */
  lemma {:induction false} ReadLinesConcat(text: string)
    ensures Concat(ReadLines(text)) == text
    decreases |text|
  {
    if text != [] && '\n' in text {
      var i := IndexOf(text, '\n');
      var line := text[..i];
      var rest := text[i + 1..];
      assert text == line + "\n" + rest;
      ReadLinesCons(line, rest);
      ReadLinesConcat(rest);
      var lines := ReadLines(text);
      assert lines[1..] == ReadLines(rest);
    } else if text != [] {
      assert ReadLines(text)[1..] == [];
    }
  }

  /** No line is empty; a line break only ends a line, and every line but the last ends with one. */
  predicate LinesShape(lines: seq<string>)
  {
    && (forall k :: 0 <= k < |lines| ==> lines[k] != [])
    && (forall k :: 0 <= k < |lines| ==> '\n' !in lines[k][..|lines[k]| - 1])
    && (forall k :: 0 <= k < |lines| - 1 ==> lines[k][|lines[k]| - 1] == '\n')
  }

  /** A line ended by its line break, in front of well-shaped lines, keeps them well shaped. */
  lemma LinesShapeCons(line: string, tail: seq<string>)
    requires '\n' !in line && LinesShape(tail)
    ensures LinesShape([line + "\n"] + tail)
  {
    var lines := [line + "\n"] + tail;
    assert lines[0][..|lines[0]| - 1] == line;
    assert forall k :: 1 <= k < |lines| ==> lines[k] == tail[k - 1];
  }

  /** The lines `readlines` gives are well shaped. */
  lemma {:induction false} ReadLinesShape(text: string)
    ensures LinesShape(ReadLines(text))
    decreases |text|
  {
    if text != [] && '\n' in text {
      var i := IndexOf(text, '\n');
      var line := text[..i];
      var rest := text[i + 1..];
      assert text == line + "\n" + rest;
      ReadLinesCons(line, rest);
      ReadLinesShape(rest);
      LinesShapeCons(line, ReadLines(rest));
    } else if text != [] {
      assert text[..|text| - 1] <= text;
    }
  }

  /** `[l.strip() for l in lines]`. */
  function StripAll(lines: seq<string>): (r: seq<string>)
    ensures |r| == |lines|
    ensures forall k :: 0 <= k < |lines| ==> r[k] == Strip(lines[k])
  {
    seq(|lines|, k requires 0 <= k < |lines| => Strip(lines[k]))
  }

  /**
   * `REF_SEQ`: the stripped lines after the first, joined with nothing
   * between them. It never holds a line break: every line loses its own
   * when stripped.
   */
  function ReferenceSequence(guide: string): (r: string)
    ensures '\n' !in r
  {
    var lines := ReadLines(guide);
    var body := if lines == [] then [] else lines[1..];
    StrippedLinesClean(guide, body);
    Concat(StripAll(body))
  }

  /** The lines after the header, each stripped, hold no line break. */
  lemma StrippedLinesClean(guide: string, body: seq<string>)
    requires body == if ReadLines(guide) == [] then [] else ReadLines(guide)[1..]
    ensures '\n' !in Concat(StripAll(body))
  {
    var lines := ReadLines(guide);
    forall k | 0 <= k < |body|
      ensures '\n' !in Strip(body[k])
    {
      ReadLinesShape(guide);
      assert body[k] == lines[k + 1];
      StripKeepsOut(body[k], '\n');
    }
    ConcatAvoids(StripAll(body), '\n');
  }

  /** Whatever the header line says, the reference is the same. */
  lemma HeaderIgnored(header1: string, header2: string, body: string)
    requires '\n' !in header1 && '\n' !in header2
    ensures ReferenceSequence(header1 + "\n" + body) == ReferenceSequence(header2 + "\n" + body)
  {
    ReadLinesCons(header1, body);
    ReadLinesCons(header2, body);
    assert ReadLines(header1 + "\n" + body)[1..] == ReadLines(body);
    assert ReadLines(header2 + "\n" + body)[1..] == ReadLines(body);
  }

  /** The text of a FASTA file: a header line, then each sequence line ended by a line break. */
  function FastaText(header: string, lines: seq<string>): string
  {
    header + "\n" + LinesText(lines)
  }

  function LinesText(lines: seq<string>): string
  {
    if lines == [] then [] else lines[0] + "\n" + LinesText(lines[1..])
  }

  /** Each line with its line break appended. */
  function Terminated(lines: seq<string>): seq<string>
  {
    if lines == [] then [] else [lines[0] + "\n"] + Terminated(lines[1..])
  }

  lemma {:induction false} ReadLinesText(lines: seq<string>)
    requires forall k :: 0 <= k < |lines| ==> '\n' !in lines[k]
    ensures ReadLines(LinesText(lines)) == Terminated(lines)
  {
    if lines != [] {
      ReadLinesCons(lines[0], LinesText(lines[1..]));
      ReadLinesText(lines[1..]);
    }
  }

  lemma {:induction false} ConcatStripped(lines: seq<string>)
    requires forall k :: 0 <= k < |lines| ==> lines[k] != [] ==> !IsSpace(lines[k][0]) && !IsSpace(lines[k][|lines[k]| - 1])
    ensures Concat(StripAll(Terminated(lines))) == Concat(lines)
  {
    if lines != [] {
      ConcatStripped(lines[1..]);
      StripAllCons(lines[0], lines[1..]);
      assert AllSpace("\n");
      StripPadded(lines[0], "\n");
    }
  }

  /** Stripping the lines of `line` then `rest`, ended by their line breaks, is the stripped first line, then the rest. */
  lemma StripAllCons(line: string, rest: seq<string>)
    ensures StripAll(Terminated([line] + rest)) == [Strip(line + "\n")] + StripAll(Terminated(rest))
  {
    assert ([line] + rest)[1..] == rest;
    assert Terminated([line] + rest) == [line + "\n"] + Terminated(rest);
  }

  /**
   * The reference of a FASTA file whose sequence lines carry no surrounding
   * whitespace is those lines joined together.
   */
  lemma ReferenceOfFasta(header: string, lines: seq<string>)
    requires '\n' !in header
    requires forall k :: 0 <= k < |lines| ==> '\n' !in lines[k]
    requires forall k :: 0 <= k < |lines| ==> lines[k] != [] ==> !IsSpace(lines[k][0]) && !IsSpace(lines[k][|lines[k]| - 1])
    ensures ReferenceSequence(FastaText(header, lines)) == Concat(lines)
  {
    ReadLinesCons(header, LinesText(lines));
    ReadLinesText(lines);
    ConcatStripped(lines);
    assert ReadLines(FastaText(header, lines))[1..] == ReadLines(LinesText(lines));
  }
}
