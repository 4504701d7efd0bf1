/** When SEARCH/REPLACE edits break the skeleton of a file with EVOLVE-BLOCK regions
    (libreevolve/core/candidate.py, lines 1704-1742): exactly when an edit writes a marker
    line.  The proof counts marker lines. */
module Skeleton {
  import opened Text
  import opened LineEndings
  import opened EvolveBlocks
  import opened CandidateMutation

  // ----- counting marker lines

  function CountMarkers(lines: seq<string>): nat {
    if lines == [] then 0
    else (if MarkerOf(lines[0]) == NoMarker then 0 else 1) + CountMarkers(lines[1..])
  }

  /** How many lines of a text are markers of any kind, also malformed ones. */
  function MarkerLines(s: string): nat {
    CountMarkers(SplitLines(s))
  }

  lemma {:induction false} CountConcat(a: seq<string>, b: seq<string>)
    ensures CountMarkers(a + b) == CountMarkers(a) + CountMarkers(b)
    decreases |a|
  {
    hide MarkerOf;
    if a == [] {
      assert a + b == b;
    } else {
      CountConcat(a[1..], b);
      assert (a + b)[1..] == a[1..] + b;
    }
  }

  lemma {:induction false} CountPlain(lines: seq<string>)
    ensures CountMarkers(lines) == 0 <==> AllPlain(lines)
    decreases |lines|
  {
    hide MarkerOf;
    if lines != [] {
      CountPlain(lines[1..]);
      assert lines == [lines[0]] + lines[1..];
      assert AllPlain(lines) <==> MarkerOf(lines[0]) == NoMarker && AllPlain(lines[1..]);
    }
  }

  lemma {:induction false} MarkerLinesConcat(a: string, b: string)
    requires Terminated(a)
    ensures MarkerLines(a + b) == MarkerLines(a) + MarkerLines(b)
  {
    hide SplitLines, CountMarkers;
    SplitConcat(a, b);
    CountConcat(SplitLines(a), SplitLines(b));
  }

  lemma {:induction false} MarkerFreeHasNone(s: string)
    ensures MarkerLines(s) == 0 <==> MarkerFree(s)
  {
    hide SplitLines, CountMarkers, AllPlain;
    CountPlain(SplitLines(s));
  }

  lemma {:induction false} OneMarkerLine(line: string)
    requires IsLine(line) && MarkerOf(line) != NoMarker
    ensures MarkerLines(line) == 1
  {
    hide SplitLines, MarkerOf;
    SplitOneLine(line, "");
    assert line + "" == line;
    NoLines();
    assert [line] + [] == [line] && [line][1..] == [];
    assert SplitLines(line) == [line];
    var none: seq<string> := [];
    assert [line][1..] == none && CountMarkers(none) == 0;
    assert CountMarkers([line]) == 1;
  }

  lemma NoLines()
    ensures SplitLines("") == []
  {
  }

  /** A block whose content may be anything has its two markers and those of its region. */
  lemma {:induction false} MarkersOfBlock(b: Block, index: nat, rest: string)
    requires GoodFrame(b, index) && Terminated(b.content + b.newline)
    requires Terminated(b.endLine) || rest == ""
    ensures MarkerLines(b.Text() + rest) == 2 + MarkerLines(b.content + b.newline) + MarkerLines(rest)
  {
    hide MarkerLines, MarkerFree, MarkerOf, NameAt, ValidName, IsLine, Terminated;
    var region := b.content + b.newline;
    assert b.Text() + rest == b.before + (b.startLine + (region + (b.endLine + rest)));
    MarkerLinesConcat(b.before, b.startLine + (region + (b.endLine + rest)));
    MarkerLinesConcat(b.startLine, region + (b.endLine + rest));
    MarkerLinesConcat(region, b.endLine + rest);
    MarkerFreeHasNone(b.before);
    OneMarkerLine(b.startLine);
    OneMarkerLine(b.endLine);
    if rest == "" {
      assert b.endLine + rest == b.endLine;
      NoMarkers();
    } else {
      MarkerLinesConcat(b.endLine, rest);
    }
  }

  lemma NoMarkers()
    ensures MarkerLines("") == 0
  {
  }

  /** The frames of a well-formed list with terminated regions of any content. */
  predicate Framed(blocks: seq<Block>, tail: string, index: nat) {
    && MarkerFree(tail)
    && (forall i :: 0 <= i < |blocks| ==>
                      GoodFrame(blocks[i], index + i) && Terminated(blocks[i].content + blocks[i].newline))
    && (forall i :: 0 <= i < |blocks| ==>
          Terminated(blocks[i].endLine) || (i == |blocks| - 1 && tail == ""))
  }

  function RegionMarkers(blocks: seq<Block>): nat {
    if blocks == [] then 0 else MarkerLines(blocks[0].content + blocks[0].newline) + RegionMarkers(blocks[1..])
  }

  lemma {:induction false} MarkersOfFile(blocks: seq<Block>, tail: string, index: nat)
    requires Framed(blocks, tail, index)
    ensures MarkerLines(Unparse(blocks, tail)) == 2 * |blocks| + RegionMarkers(blocks)
    decreases |blocks|
  {
    hide MarkerLines, MarkerFree, GoodFrame, Terminated;
    if blocks == [] {
      MarkerFreeHasNone(tail);
    } else {
      var rest := blocks[1..];
      forall i | 0 <= i < |rest|
        ensures GoodFrame(rest[i], index + 1 + i) && Terminated(rest[i].content + rest[i].newline)
        ensures Terminated(rest[i].endLine) || (i == |rest| - 1 && tail == "")
      {
        assert rest[i] == blocks[i + 1] && index + 1 + i == index + (i + 1);
      }
      MarkersOfFile(rest, tail, index + 1);
      assert index + 0 == index;
      assert GoodFrame(blocks[0], index + 0);
      MarkersOfBlock(blocks[0], index, Unparse(rest, tail));
    }
  }

  lemma {:induction false} NoRegionMarkers(blocks: seq<Block>)
    ensures RegionMarkers(blocks) == 0 <==> forall b <- blocks :: MarkerFree(b.content + b.newline)
    decreases |blocks|
  {
    hide MarkerLines, MarkerFree;
    if blocks != [] {
      NoRegionMarkers(blocks[1..]);
      MarkerFreeHasNone(blocks[0].content + blocks[0].newline);
      assert blocks == [blocks[0]] + blocks[1..];
    }
  }

  lemma {:induction false} WellFormedIsFramed(blocks: seq<Block>, tail: string)
    requires WellFormed(blocks, tail)
    ensures Framed(blocks, tail, 0)
    ensures forall b <- blocks :: MarkerFree(b.content + b.newline)
  {
    hide MarkerFree, GoodFrame, Terminated;
    forall i | 0 <= i < |blocks|
      ensures GoodFrame(blocks[i], 0 + i) && Terminated(blocks[i].content + blocks[i].newline)
      ensures MarkerFree(blocks[i].content + blocks[i].newline)
    {
      assert GoodBlock(blocks[i], i);
      RegionFacts(blocks[i].content, blocks[i].newline);
    }
  }

  /** A file without errors has exactly two marker lines for each block. */
  lemma {:induction false} TwoMarkersEach(code: string)
    requires Parse(code).error.None?
    ensures MarkerLines(code) == 2 * |Parse(code).blocks|
  {
    hide Parse, MarkerLines, WellFormed, RegionMarkers, MarkerFree, Unparse, Framed;
    var p := Parse(code);
    UnparseInvertsParse(code);
    WellFormedIsFramed(p.blocks, p.tail);
    MarkersOfFile(p.blocks, p.tail, 0);
    NoRegionMarkers(p.blocks);
  }

  // ----- edits

  /** The text parses without error and has the skeleton and the block names of p. */
  predicate KeepsSkeleton(p: Parsed, text: string) {
    Parse(text).error.None? && SameSkeleton(p, Parse(text))
  }

  /** An edit adds the marker lines of the content it writes and takes none away, also in a
      file that earlier edits have broken: the blocks before an error are still well formed. */
  lemma {:induction false} EditAddsMarkers(code: string, e: Edit)
    requires EditStep(code, e).Ok?
    ensures StepContent(code, e).Some?
    ensures MarkerLines(EditStep(code, e).value)
            == MarkerLines(code) + MarkerLines(StepContent(code, e).value.1 + "\n")
  {
    hide Parse, MarkerLines, MarkerFree, EditStep, StepContent, Unparse, AfterBlocks, Terminated, MarkerOf, ValidName;
    EditStepText(code, e);
    ParsedBlocksAreGood(code);
    var blocks, rest := Parse(code).blocks, AfterBlocks(code);
    var (i, content) := StepContent(code, e).value;
    var changed := blocks[i := blocks[i].(content := content)];
    assert GoodBlock(blocks[i], i);
    MarkersAround(blocks, rest, i);
    MarkersAround(changed, rest, i);
    assert changed[..i] == blocks[..i] && changed[i + 1..] == blocks[i + 1..];
    RegionFacts(blocks[i].content, blocks[i].newline);
    MarkerFreeHasNone(blocks[i].content + blocks[i].newline);
  }

  /** The marker lines of a file, cut around the region of one block. */
  lemma {:induction false} MarkersAround(blocks: seq<Block>, rest: string, i: nat)
    requires i < |blocks| && blocks[i].newline == "\n"
    requires Terminated(blocks[i].startLine) && blocks[i].startLine != ""
    ensures var b := blocks[i];
            MarkerLines(Unparse(blocks, rest))
            == MarkerLines(Unparse(blocks[..i], "") + (b.before + b.startLine)) + MarkerLines(b.content + "\n")
               + MarkerLines(b.endLine + Unparse(blocks[i + 1..], rest))
  {
    hide MarkerLines, Unparse;
    var b, prefix, after := blocks[i], Unparse(blocks[..i], ""), Unparse(blocks[i + 1..], rest);
    var head, region := prefix + (b.before + b.startLine), b.content + "\n";
    UnparseSplit(blocks, rest, i);
    assert Unparse(blocks, rest) == head + (region + (b.endLine + after));
    MarkerLinesConcat(head, region + (b.endLine + after));
    MarkerLinesConcat(region, b.endLine + after);
  }

  /** One edit keeps the skeleton and the block names if and only if the content it writes
      holds no marker line. */
  lemma {:induction false} EditKeepsSkeletonIff(code: string, e: Edit)
    requires Parse(code).error.None? && EditStep(code, e).Ok?
    ensures StepContent(code, e).Some?
    ensures KeepsSkeleton(Parse(code), EditStep(code, e).value) <==> MarkerFree(StepContent(code, e).value.1)
  {
    hide Parse, MarkerFree, EditStep, StepContent, WellFormed, Unparse, MarkerLines;
    EditStepKeepsSkeleton(code, e);
    EditAddsMarkers(code, e);
    var content := StepContent(code, e).value.1;
    MarkerFreeHasNone(content + "\n");
    MarkerFreeLineEnd(content);
    TwoMarkersEach(code);
    if KeepsSkeleton(Parse(code), EditStep(code, e).value) { TwoMarkersEach(EditStep(code, e).value); }
  }

  /** Over a whole list of edits no marker line is ever taken away, and none is added exactly
      when no edit writes one. */
  lemma {:induction false} MarkersGrow(code: string, edits: seq<Edit>)
    requires EditBlocks(code, edits).Ok?
    ensures MarkerLines(EditBlocks(code, edits).value) >= MarkerLines(code)
    ensures MarkerLines(EditBlocks(code, edits).value) == MarkerLines(code) <==> WritesNoMarkers(code, edits)
    decreases |edits|
  {
    hide Parse, MarkerFree, EditStep, StepContent, MarkerLines;
    if edits != [] {
      EditAddsMarkers(code, edits[0]);
      var content := StepContent(code, edits[0]).value.1;
      MarkerFreeHasNone(content + "\n");
      MarkerFreeLineEnd(content);
      MarkersGrow(EditStep(code, edits[0]).value, edits[1..]);
    }
  }

  /** The text that a list of edits leaves has the skeleton and the block names of the file if
      and only if no edit writes a content with a marker line.  So a broken skeleton is never
      repaired by a later edit. */
  lemma {:induction false} EditsKeepSkeletonIff(code: string, edits: seq<Edit>)
    requires Parse(code).error.None? && EditBlocks(code, edits).Ok?
    ensures KeepsSkeleton(Parse(code), EditBlocks(code, edits).value) <==> WritesNoMarkers(code, edits)
  {
    hide Parse, EditBlocks, WritesNoMarkers, MarkerLines;
    MarkersGrow(code, edits);
    TwoMarkersEach(code);
    if WritesNoMarkers(code, edits) { EditsKeepSkeleton(code, edits); }
    if KeepsSkeleton(Parse(code), EditBlocks(code, edits).value) { TwoMarkersEach(EditBlocks(code, edits).value); }
  }
}
